# Flashcard scheduling engine, modelled in Dafny

This project models the scheduling engine of a Ruby flashcard trainer for
Georgian vocabulary, and proves properties of that model. A deck is a list of
words. Each word has a category, a few cards (one per subcategory, or kind),
a seen flag, a long-term delay and a due day. Some pairs of words are marked
as easily confused. The engine has five parts:

- **TimingQueue** (`skew_heap.dfy`, module `SkewHeap`). A skew heap of
  `(round, card)` entries, built from heap-allocated `SkewNode`s that `merge`
  rewires in place. `enroll` merges in one node. `pullFrom(t)` pops the root
  while its round is at most `t`. The pointer structure is related to a ghost
  datatype tree (`Tree`, `MergeTrees`). The properties proved are heap order,
  multiset contents and "exactly the due entries come out, in round order".
- **RandomRemovalSet** (`random_removal_set.dfy`, module `RandomRemoval`). A
  duplicate-free array `content` plus a map `indices` from each member to its
  position. Removal swaps the member to the end and pops it. The invariant
  `indices[content[i]] == i` and its consequences are kept by every operation.
- **WordDatabase** (`word_database.dfy`, module `WordDb`). The deck as loaded
  (`unpack`), as saved (`pack`), the symmetric confusion map, the question bank,
  the outcomes of the session, the words seen today, and the once-per-session
  review of every seen word (`handleWord`, `wrapUpCalculations`).
- **CardSupplier** (`card_supplier.dfy`, module `Supplier`). Per category, an
  unseen pool and an overdue pool of words, a card count and an in-play count.
  `cardsPlease` picks a category, then a pool, then a word. `steal` withdraws
  the word's confusion rivals from every pool.
- **CardScheduler** (`card_scheduler.dfy`, module `Scheduler`). The round
  counter, the queue of waiting cards, the card being asked, the history, the
  streak, the short-term delays and a TimingQueue of cards put off.
  `advanceTime`, `loadMore`, `chooseCard` and `stowCard` drive a session.

`common.dfy` (module `Common`) holds `Option`, the `uniq!` of Ruby lists, and
the rounding of Ruby's `Integer()`. `deck.dfy` (module `Deck`) holds the
entities: `Card`, `Word`, and their saved forms `StoredCard` and `StoredWord`.

Words are identified by their position in the deck: a card's `parent` is the
index of its word, and confusion pairs are pairs of indices. In the source
these are the same `Word` objects, shared by reference. Cards are values:
within a deck a card is identified by its word and its kind, because the saved
form keeps one card per kind.

`flashcards.rb` is an earlier single-file version of the same engine. Its
`merge`, `CardQueue`, `RandomRemoval`, `CardSupplier`, `CardScheduler` and
`WordDatabase` (lines 17-495) share this model. It differs from the later files
in two calls that crash. The later files have a crash of their own: the
supplier's pools are made with a class name that is not defined
(deck_manager.rb:29-30). Each is modelled as an error outcome beside the
corrected operation; see "## Findings".

Some behaviour of the code worth knowing, which the model keeps:

- `chooseCard` scores every waiting card, including those confused with the
  recent history; only `loadMore` consults `historyConfusion`
  (deck_manager.rb:118-122, 155-171).
- `cardsPlease` does not clear its candidate list when a lower score appears
  (deck_manager.rb:53-54). An earlier category with a higher score stays a
  candidate, so the choice is not among minimum-scoring categories only.
  `Supplier.ScanKeepsEarlierCandidates` shows such a case.
- The streak of `chooseCard` is kept per kind (`card.type`), compared with the
  kind of the streak so far (deck_manager.rb:175-180), not per category.
- `pullFrom` returns the due entries in non-decreasing round order, because
  each step pops the minimum (structs.rb:29-31).
- `handleWord` on a word with no cards: the Float sum `runningTotal /= 0` is
  NaN (deck_manager.rb:330), the NaN delay is stored (:331), and `Integer` of
  the NaN due day raises FloatDomainError (:332). The model keeps this as the
  `NoCards` outcome, and `wrapUpCalculations` then stops with `ok == false`.
  The loader does not reject such words.

## Model

| member | source | states |
|---|---|---|
| Common.Uniq | deck_manager.rb:251-252 | `uniq!` leaves a list without duplicates that keeps every element of the original and adds none |
| Common.UniqOfDistinct | deck_manager.rb:251-252 | `uniq!` leaves a list that already has no duplicates unchanged |
| Common.Truncate | deck_manager.rb:123 | Ruby's `Integer()` on a float truncates toward zero: the result is within 1 below a nonnegative argument, and within 1 above a negative one |
| Common.DueDate | deck_manager.rb:198-199 | the round a stowed card is due is never before the current round, and it is a nonnegative `round + delay * factor` rounded to the nearest integer |
| Deck.Keys | deck_manager.rb:241-247 | the kinds of a word's (kind, card) list, one per entry and in order |
| SkewHeap.MergeRoot | structs.rb:54-67 | merging two nonempty heaps gives a heap whose root has the smaller of the two root rounds |
| SkewHeap.MergeContents | structs.rb:54-67 | the entries of a merged heap are the multiset union of the entries of both heaps |
| SkewHeap.MergeIsHeap | structs.rb:54-67 | merging two heap-ordered trees gives a heap-ordered tree |
| SkewHeap.RootIsMinimum | structs.rb:29-31 | the root of a heap-ordered tree has a round no later than any entry in it |
| SkewHeap.InsertContents | structs.rb:18-21 | merging in a single node keeps heap order and adds exactly that entry |
| SkewHeap.PopContents | structs.rb:29-31 | replacing a heap by the merge of its children removes exactly the root entry, the minimum, and keeps heap order |
| SkewHeap.PulledStep | structs.rb:29-32 | popping a minimum entry that is due extends the popped list in round order and keeps every popped entry no later than what remains |
| SkewHeap.PulledExactly | structs.rb:27-34 | once every remaining entry is later than `t`, the popped entries are exactly the original entries due by `t`, each as often as it was enrolled |
| SkewHeap.SkewNode.constructor | structs.rb:46-50 | a new node is a heap of one entry with no children |
| SkewHeap.Merge | structs.rb:54-67 | with either side nil the other is returned; otherwise the merged pointer tree is the skew-heap merge of the two trees, on the union of their nodes |
| SkewHeap.MergeBelow | structs.rb:57-61 | with the smaller root first, the right child is merged with the other heap and the children swap, on the union of the nodes |
| SkewHeap.TimingQueue.constructor | structs.rb:13-15 | a new queue is empty |
| SkewHeap.TimingQueue.Link | structs.rb:18-21 | the new root is the skew-heap merge of the old heap with a one-node heap |
| SkewHeap.TimingQueue.Enroll | structs.rb:18-21 | the queue gains exactly the entry (time, card), so it is no longer empty |
| SkewHeap.TimingQueue.Unlink | structs.rb:31 | the new root is the merge of the old root's children |
| SkewHeap.TimingQueue.PopRoot | structs.rb:30-31 | the entry popped is the root, a minimum of the queue, and the queue loses exactly that entry |
| SkewHeap.TimingQueue.PullFrom | structs.rb:27-34 | the items returned are those of the entries due by `t`, each once per enrolment, in non-decreasing round order; the entries left are exactly the rest, all later than `t` |
| SkewHeap.TimingQueue.IsEmpty | structs.rb:36-38 | true exactly when the queue holds no entry |
| RandomRemoval.IndexedIsDistinct | structs.rb:79-85 | an array and an index map that agree hold no duplicates, and the map's keys are exactly the array's members |
| RandomRemoval.IndexedCount | structs.rb:93-95 | the number of members is the length of the array |
| RandomRemoval.SwapRemoveMembers | structs.rb:107-114 | swapping a member to the end and dropping it removes that member and only it, and keeps the array free of duplicates |
| RandomRemoval.PushIndexes | structs.rb:98-103 | appending a non-member at the next index keeps array and map in agreement |
| RandomRemoval.SwapIndexes | structs.rb:128-137 | exchanging two positions and updating both indices keeps array and map in agreement |
| RandomRemoval.DropLastIndexes | structs.rb:140-143 | dropping the last element and its index keeps array and map in agreement |
| RandomRemoval.RandomRemovalSet.constructor | structs.rb:82-85 | a new set is empty, with an empty array and an empty map |
| RandomRemoval.RandomRemovalSet.Contains | structs.rb:88-90 | true exactly when the value is in the array |
| RandomRemoval.RandomRemovalSet.Size | structs.rb:93-95 | the number of members of the set |
| RandomRemoval.RandomRemovalSet.Add | structs.rb:98-103 | a member is not added again; otherwise the value is appended with its index; the members gain the value either way |
| RandomRemoval.RandomRemovalSet.Remove | structs.rb:107-114 | removing a non-member changes nothing; otherwise the member is swapped to the end and dropped; the members lose exactly the value |
| RandomRemoval.RandomRemovalSet.PullRandom | structs.rb:118-123 | nothing is returned exactly when the set is empty; otherwise the member at the drawn position is returned and removed, and the set shrinks by one |
| RandomRemoval.RandomRemovalSet.Swap | structs.rb:128-137 | the two positions exchange their values and the two indices follow |
| RandomRemoval.RandomRemovalSet.RemoveEnd | structs.rb:140-143 | the last member is returned and removed together with its index |
| RandomRemoval.RandomRemovalSet.RemoveFirstVersion | flashcards.rb:78-85 | removing a non-member changes nothing and succeeds; removing a member fails after the swap, with the member moved to the end and the members unchanged |
| WordDb.BankSpec | deck_manager.rb:241-243 | a question is in the question bank exactly when some card asks it, and an answer is listed under it exactly when a card has that question and answer |
| WordDb.AllCardsSpec | deck_manager.rb:238-248 | a card is among the loaded cards exactly when it is the card of some kind of some word |
| WordDb.AdjacencySpec | deck_manager.rb:253-261 | `b` is listed as a rival of `a` exactly when the pair (a, b) or (b, a) was loaded, and `a` has a rival list exactly when it occurs in some pair |
| WordDb.AdjacencySymmetric | deck_manager.rb:253-261 | the confusion map built at load time is symmetric |
| WordDb.PutNew | deck_manager.rb:271 | storing a card under a kind not yet in the list appends it |
| WordDb.PackUnpackCards | deck_manager.rb:265-273 | packing the cards of a word gives back the (kind, card) list it was loaded from |
| WordDb.PackUnpackWord | deck_manager.rb:264-274 | packing a loaded word gives back the saved word |
| WordDb.RowSpec | deck_manager.rb:278-282 | the pairs emitted for word `i` are (i, j) for exactly its rivals `j` with `i < j` below the bound, in increasing `j` |
| WordDb.PackPairsSpec | deck_manager.rb:275-283 | the saved confusion list holds exactly the pairs (i, j) of rivals with `i < j`, each once, in order |
| WordDb.PackPairsRoundTrip | deck_manager.rb:253-283 | two distinct words of the deck are linked in the saved confusion list exactly when they were linked in the loaded one |
| WordDb.Unpack | deck_manager.rb:233-262 | loading gives the words with each card's kind and parent set, the categories and kinds without duplicates, the question bank and the symmetric confusion map |
| WordDb.UnpackConfusion | deck_manager.rb:253-261 | the loop over the loaded pairs builds the confusion map, each pair entered in both directions |
| WordDb.UnpackEntries | deck_manager.rb:241-248 | the loop over one word's cards sets their kinds and parent and adds their answers to the question bank |
| WordDb.PackWordList | deck_manager.rb:265-274 | the first loop of `pack` turns every word's cards back into a (kind, card) list |
| WordDb.RowOfUnlinked | deck_manager.rb:277 | a word without rivals contributes no pair to the saved list |
| WordDb.PackRow | deck_manager.rb:278-282 | the inner loop of `pack` emits the pairs of word `i` with its later rivals |
| WordDb.PackConfusion | deck_manager.rb:275-283 | the second loop of `pack` emits every pair of rivals (i, j), `i < j`, once |
| WordDb.TotalBounds | deck_manager.rb:325 | with every outcome between 0 and 1, the sum of a word's outcomes is between 0 and its number of cards |
| WordDb.Tally | deck_manager.rb:319-326 | the loop over a word's cards stops exactly when some card has no recorded outcome, and otherwise sums the outcomes |
| WordDb.ReviewOf | deck_manager.rb:319-330 | a word is postponed exactly when one of its cards has no outcome, and reaches the division by zero exactly when it has no cards |
| WordDb.DueDay | deck_manager.rb:332 | the new due day is `0.5 + today + delay * jitter` truncated, the nearest integer for a nonnegative value |
| WordDb.ReviewWord | deck_manager.rb:316-333 | the reviewed word is seen; with an unanswered card it is due tomorrow at the default delay; with no cards it stops with the default delay filled in; otherwise its delay and due day are recomputed from its success fraction; category and cards never change |
| WordDb.ReplaceMatches | deck_manager.rb:317 | changing a word's seen flag, delay or due day keeps the words matching the loaded deck |
| WordDb.CategoriesListed | deck_manager.rb:238-251 | the category of every word is among the loaded categories |
| WordDb.RivalsWithin | deck_manager.rb:253-261 | every rival in the confusion map is a word of the deck when every loaded pair is |
| WordDb.StoredCardsMatch | deck_manager.rb:241-246 | a loaded card has a question and an answer exactly when a card of the unpacked words has them |
| WordDb.WordDatabase.constructor | deck_manager.rb:289-299 | the database holds the unpacked deck, nothing seen today and no outcome; `today` is the local day number of the clock |
| WordDb.WordDatabase.Covered | deck_manager.rb:238-261 | in a loaded database every word's category is listed and every rival is a word of the deck |
| WordDb.WordDatabase.Confused | deck_manager.rb:306-310 | two cards are confused exactly when their words were linked, in either order, in the loaded confusion list |
| WordDb.WordDatabase.ConfusedFirstVersion | flashcards.rb:449-453 | `confused` as first written raises exactly when the first card's word has rivals, and otherwise answers false |
| WordDb.WordDatabase.FlagSuccess | deck_manager.rb:312-314 | the first outcome recorded for a card stays; only a card without one gets the new outcome |
| WordDb.WordDatabase.FlagSeen | deck_manager.rb:343-346 | the card's word joins the words seen today and is marked seen; nothing else changes |
| WordDb.WordDatabase.LegitimateAnswer | deck_manager.rb:348-350 | true exactly when some card of the deck has this question and this answer |
| WordDb.WordDatabase.HandleWord | deck_manager.rb:316-333 | the word is reviewed as `ReviewWord` states, and no other word changes |
| WordDb.WordDatabase.WrapUpCalculations | deck_manager.rb:336-341 | it fails exactly when a word seen today has no cards; otherwise the words seen today are reviewed and every other word is unchanged |
| WordDb.WordDatabase.Pack | deck_manager.rb:264-286 | saving gives back the loaded categories and (kind, card) lists, and a confusion list linking exactly the distinct words linked at load time |
| Supplier.RoutedSpec | deck_manager.rb:34-44 | a word is routed to the unseen pool of `c` exactly when it is of category `c` and not seen, and to the overdue pool exactly when it is of `c`, seen and due by today |
| Supplier.RoutedElsewhere | deck_manager.rb:35-43 | routing a word of another category leaves the pools of `c` as they were |
| Supplier.InPlayBelowCount | deck_manager.rb:75-86 | the cards released for a category never exceed its card count |
| Supplier.InPlayAdd | deck_manager.rb:77 | releasing a new word adds its number of cards to its category's in-play count and to no other |
| Supplier.InPlayOfNone | deck_manager.rb:32 | with nothing released, every in-play count is zero |
| Supplier.ScanSnoc | deck_manager.rb:50-55 | scanning one more category is one more step of the scan of `cardsPlease` |
| Supplier.ScanSpec | deck_manager.rb:48-55 | the running minimum is at most 2 and at most every score seen, and is 2 or one of them; every candidate is a category with a nonempty pool |
| Supplier.ScanGrows | deck_manager.rb:53-54 | the candidates are never cleared: a later scan keeps every earlier candidate |
| Supplier.ScanNone | deck_manager.rb:56 | with every pool empty there is no candidate |
| Supplier.ScanSome | deck_manager.rb:51-56 | with some nonempty pool and scores at most 2 there is a candidate |
| Supplier.ScanKeepsFirstMinimum | deck_manager.rb:52-54 | the first category attaining the lowest score is a candidate |
| Supplier.ScanKeepsEarlierCandidates | deck_manager.rb:53-54 | a category scanned before a lower score stays a candidate |
| Supplier.CountsStep | deck_manager.rb:36 | adding a word's cards to its category's count keeps the counts equal to the card totals so far |
| Supplier.RoutedWithout | deck_manager.rb:78-84 | withdrawing words keeps every pool routed correctly |
| Supplier.ApartWithout | deck_manager.rb:78-84 | withdrawing words keeps released words out of every pool |
| Supplier.WithoutHome | deck_manager.rb:80-82 | withdrawing a word changes no pool outside its own category |
| Supplier.WithoutWithout | deck_manager.rb:78-84 | withdrawing two sets of words one after the other is withdrawing both at once |
| Supplier.WithoutNothing | deck_manager.rb:78 | withdrawing no word changes nothing |
| Supplier.ApartAdd | deck_manager.rb:70-72 | a word pulled out of its pools can be released with every released word still out of the pools |
| Supplier.CardSupplier.constructor | deck_manager.rb:22-45 | every category starts with nothing in play and its total card count, and its pools hold in deck order exactly its unseen words, and its seen words due by today |
| Supplier.CardSupplier.RoutedPools | deck_manager.rb:34-44 | after routing, the pools of `c` hold only words of `c`, unseen in one and overdue in the other |
| Supplier.CardSupplier.BuiltIsValid | deck_manager.rb:22-45 | the freshly built pools and counters satisfy the supplier's invariant |
| Supplier.CardSupplier.ScoreOf | deck_manager.rb:51-52 | a category has no score exactly when both its pools are empty, and otherwise a score between 0 and 1 |
| Supplier.CardSupplier.ScoresOfSpec | deck_manager.rb:50-52 | the `k`-th score of the scan is that of the `k`-th category |
| Supplier.CardSupplier.BestCategories | deck_manager.rb:48-55 | the loop gives the candidates and running minimum of the scan over every category |
| Supplier.CardSupplier.ScanCategory | deck_manager.rb:51-54 | one turn of the loop is one step of the scan |
| Supplier.CardSupplier.CandidatesSpec | deck_manager.rb:50-56 | every candidate has a nonempty pool, and there is none exactly when every pool is empty |
| Supplier.CardSupplier.CandidatesPooled | deck_manager.rb:51 | every candidate has a nonempty pool |
| Supplier.CardSupplier.CandidatesExist | deck_manager.rb:51-56 | there is no candidate exactly when every pool is empty |
| Supplier.CardSupplier.Withdraw | deck_manager.rb:80-82 | one rival leaves both pools of its category; nothing else changes |
| Supplier.CardSupplier.WithdrawAll | deck_manager.rb:78-84 | every rival leaves its pools; nothing else changes |
| Supplier.CardSupplier.Account | deck_manager.rb:76-77 | the word is released and its cards join its category's in-play count |
| Supplier.CardSupplier.Take | deck_manager.rb:76-77 | the word is released, its cards join the in-play count, and the pools keep their members |
| Supplier.CardSupplier.WithdrawRivals | deck_manager.rb:78-84 | the rivals of a word leave every pool |
| Supplier.CardSupplier.Steal | deck_manager.rb:75-86 | the word's cards are returned, they join its category's in-play count, the word is released, and its rivals leave every pool |
| Supplier.CardSupplier.FromUnseen | deck_manager.rb:60-68 | the pool chosen is the overdue one when the unseen pool is empty, the unseen one when the overdue pool is empty, and otherwise as the coin says |
| Supplier.CardSupplier.Draw | deck_manager.rb:60-70 | a word is pulled at the drawn position of the chosen pool, of the chosen category, and leaves the pools |
| Supplier.CardSupplier.PullUnseen | deck_manager.rb:63-70 | an unseen word of the category is pulled at the drawn position and leaves the pools |
| Supplier.CardSupplier.PullOverdue | deck_manager.rb:61-70 | an overdue word of the category is pulled at the drawn position and leaves the pools |
| Supplier.CardSupplier.Serve | deck_manager.rb:60-72 | a word not released before is pulled from the chosen pool and stolen: its cards are returned and it and its rivals leave the pools |
| Supplier.CardSupplier.CardsPlease | deck_manager.rb:47-73 | no card and no change exactly when every pool is empty; otherwise the cards of the word at the drawn position of the pool chosen in the candidate picked, a word not released before, which is released with its rivals withdrawn |
| Supplier.CardSupplier.WithdrawFirstVersion | flashcards.rb:176-177 | removing a rival with the first `remove` fails exactly when it is in a pool; the pools keep their members |
| Supplier.CardSupplier.WithdrawAllFirstVersion | flashcards.rb:174-178 | the loop over the rivals fails exactly when one of them is in a pool |
| Supplier.CardSupplier.StealFirstVersion | flashcards.rb:170-181 | `steal` as first written succeeds exactly when no rival is in a pool, and then returns the word's cards |
| Supplier.RouteInto | deck_manager.rb:37-43 | a word of category `c` is appended to the unseen pool when not seen, to the overdue pool when seen and due, and otherwise to neither |
| Supplier.RemoveBoth | deck_manager.rb:81-82 | the word leaves both pools |
| Supplier.RemoveBothFirstVersion | flashcards.rb:176-177 | with the first `remove`, the pair of removals fails exactly when the word is in one of the pools |
| Supplier.Pull | deck_manager.rb:70 | the word at the drawn position leaves the pool |
| Supplier.NewPair | deck_manager.rb:29-30 | two new, distinct, empty pools |
| Supplier.MakePools | deck_manager.rb:28-33 | every category gets two empty pools of its own, a zero card count and a zero in-play count |
| Supplier.MakePoolsAsWritten | deck_manager.rb:28-30 | the pool loop as written fails exactly when there is a category, since `RandomRemoval` names no class |
| Supplier.Build | deck_manager.rb:28-44 | the pools and counters after both loops of the constructor |
| Supplier.BlankRoutable | deck_manager.rb:28-33 | the empty pools are correctly routed for no word |
| Supplier.RouteWords | deck_manager.rb:34-44 | the word loop routes every remaining word and counts its cards |
| Supplier.RouteStep | deck_manager.rb:35-43 | one turn of the word loop routes one word and counts its cards |
| Scheduler.Back | deck_manager.rb:209 | `history[-i]`: the entry `i` places from the end, and nothing outside the history |
| Scheduler.RelatedWithin | deck_manager.rb:215-221 | some card among the last `n` asked belongs to the same word |
| Scheduler.ScoreBelowStart | deck_manager.rb:154-166 | every score of a waiting card is below the starting bound `8 ql + 1` |
| Scheduler.ScoreOrder | deck_manager.rb:160-166 | scores order cards first by not being related to the history, then by suiting the streak, then by nearness to the end |
| Scheduler.ConcatPrefixGrows | deck_manager.rb:130 | more requests hold at least as many cards |
| Scheduler.ShortPrefixes | deck_manager.rb:127 | when the last request was made short of the goal, every request was |
| Scheduler.SplitWithin | deck_manager.rb:112 | the cards pulled from the timing queue, and those left, are among the cards it held |
| Scheduler.ShuffleWithin | deck_manager.rb:113 | a shuffle keeps the cards it reorders |
| Scheduler.ShuffleBelow | deck_manager.rb:132 | a shuffle of cards of deck words holds only such cards |
| Scheduler.CardsOfWord | deck_manager.rb:245 | the cards of a word have that word as their parent |
| Scheduler.DrawnSnoc | deck_manager.rb:128 | one more request keeps the record of the words handed out |
| Scheduler.ShortSnoc | deck_manager.rb:127-130 | a request that brings cards while short of the goal keeps the loop's record |
| Scheduler.ShortDone | deck_manager.rb:127 | the loop stops at the goal |
| Scheduler.ShortBreak | deck_manager.rb:129 | the loop stops at a request that brought nothing |
| Scheduler.OneMore | deck_manager.rb:127-131 | each request that brings cards hands out one more word of the deck, so the loop ends |
| Scheduler.FetchedCards | deck_manager.rb:126-131 | every card fetched is of a word handed out by the requests |
| Scheduler.Request | deck_manager.rb:128 | a request brings nothing and hands out no word, or brings the cards of a word not handed out before, which it hands out |
| Scheduler.Draw | deck_manager.rb:127-131 | one turn of the loop: a request, and a stop exactly when it brought nothing |
| Scheduler.Fetch | deck_manager.rb:126-131 | requests are made while fewer than `goal` cards are held; the loop stops at the goal or at a request that brought nothing; the cards held are those the requests brought |
| Scheduler.CardScheduler.constructor | deck_manager.rb:94-106 | a new scheduler is at round 0 with no card waiting, asked, put off or in the history, no streak and no delay |
| Scheduler.CardScheduler.IsEmpty | deck_manager.rb:144-146 | true exactly when no card waits, none is put off and none is being asked |
| Scheduler.CardScheduler.ConfusedWithin | deck_manager.rb:207-213 | some card among the last `n` asked is confused with the card |
| Scheduler.CardScheduler.EligibleCountSpec | deck_manager.rb:118-122 | the count is zero exactly when no waiting card is eligible, and the number of cards exactly when all are |
| Scheduler.CardScheduler.CountEligible | deck_manager.rb:118-122 | the loop counts the waiting cards neither confused with nor related to the recent history |
| Scheduler.CardScheduler.AdvanceTime | deck_manager.rb:110-115 | the round grows by one; exactly the entries due by it leave the timing queue, in round order, and their cards, shuffled, join the end of the queue |
| Scheduler.CardScheduler.StowCard | deck_manager.rb:189-201 | the card asked is put down, its first outcome is recorded, its delay is updated and it is put off until the round computed from it |
| Scheduler.CardScheduler.TimingQueueKept | deck_manager.rb:97 | changing the scheduler's own fields leaves the timing queue as it was |
| Scheduler.CardScheduler.Enqueue | deck_manager.rb:133-140 | each card joins the end of the queue with delay 5 when its word was never seen and the seen-word delay otherwise; other delays stay |
| Scheduler.CardScheduler.Gather | deck_manager.rb:126-131 | the cards fetched are those of the requests; each request brings all the cards of a deck word handed out during the call, or nothing; the requests stop once the goal is met or one brings nothing |
| Scheduler.CardScheduler.Replenish | deck_manager.rb:126-140 | the cards fetched, each request bringing all the cards of a word handed out during the call or nothing, join the queue shuffled, with their first delays |
| Scheduler.CardScheduler.Settle | deck_manager.rb:132-140 | the cards drawn join the end of the queue shuffled, with their first delays; the supplier is unchanged |
| Scheduler.CardScheduler.LoadMore | deck_manager.rb:117-142 | with enough eligible cards nothing changes; otherwise cards are fetched word by word, each request bringing all the cards of a word handed out during the call or nothing, until the shortfall is made up or a request brings nothing, and join the queue shuffled with their first delays |
| Scheduler.CardScheduler.ChooseCard | deck_manager.rb:148-186 | with a card being asked, "no" and no change; with no card waiting, nothing is chosen; otherwise the unique best-scoring card leaves the queue and is asked, and the streak grows or restarts; the result goes onto the history |
| Scheduler.CardScheduler.Scan | deck_manager.rb:151-171 | the scan finds a waiting card exactly when one waits, and that card scores below every other |
| Scheduler.CardScheduler.BestStep | deck_manager.rb:167-170 | scanning one more card keeps the best so far unique |

## Left out

- Floating point. The formulas become parameters of the model. The category
  score of `cardsPlease` (deck_manager.rb:52) is a function `score` into
  [0, 1]. The first delay of a card of a seen word (deck_manager.rb:138) is
  `seenDelay`. The short-term delay after an answer (deck_manager.rb:193-197)
  is `nextDelay`. The long-term delay after a review (deck_manager.rb:331) is
  `reviewDelay`. Reals are exact.
- Supplier.CardSupplier.CardsPlease: the score `log(1 + inPlay) / log(1 +
  count)` of a category whose words hold no cards is the float NaN in Ruby,
  which never becomes a candidate. The model's score is always a number in
  [0, 1], so that case is not captured.
- Randomness. The caller supplies Ruby's random choices. `bestCat.shuffle!;
  bestCat[0]` is the candidate at position `pick % |best|`.
  `rand < $Adventure` is a boolean `coin`. `rand(size)` in `pullRandom` is a
  position `draw % size`. `shuffle!` is a function `shuffle` that keeps every
  list's multiset. The random factors of the two due dates are the parameters
  `jitter`. In `loadMore`, `roll(n)` gives the choices of the `n`-th request.
- The clock. `Time.now` and its offset from UTC (deck_manager.rb:298) are the
  constructor's parameters `now` and `gmtOffset`.
- YAML input and output through Psych, the file written by `closeEverything`
  (deck_manager.rb:352-358), the `DeckManager` facade with its console prompts
  (deck_manager.rb:364-409), and `main` in flashcards.rb. These are I/O and
  orchestration.
- The sample data files only build a literal deck. The commented-out
  `Algorithm` class of flashcards.rb is dead code. Neither is part of this model.
- WordDb.ReviewWord: on a word with no cards the source stores a NaN delay
  (deck_manager.rb:331) just before it raises (:332). The model's word keeps
  the delay it had after the default was filled in (:327-329), because reals
  have no NaN. The raise aborts `closeEverything` before `pack`, so no saved
  deck holds that delay.
- WordDb.WordDatabase.HandleWord: the same NaN delay is not modelled, as it
  reviews the word as `WordDb.ReviewWord` does.
- WordDb.WordDatabase.Pack: the source's `pack` overwrites the loaded form in
  place: each `word.cards` becomes a kind-to-card Hash (deck_manager.rb:273)
  and `@confusion` becomes the pair list (:284). After it, `confused`, `steal`
  and `loadMore` would misread both. The model's `Pack` returns the saved form
  and changes no state. This agrees with the source only because
  `closeEverything` calls `pack` last (deck_manager.rb:352-358).
- Scheduler.CardScheduler.StowCard: requires a card being asked. The source
  is only called after a card was chosen; with none it would raise at
  `2*@cardDelays[card]` (deck_manager.rb:194).
- Supplier.CardSupplier.constructor: requires every seen word to have a due
  day and every rival to be a deck word. The loaded deck guarantees both: the
  due day is written whenever a word is reviewed, and the saved pairs refer to
  deck words. The pairs are indices in the model, so "a deck word" becomes a
  bound on the index.
- Supplier.CardSupplier.StealFirstVersion: the failing `remove` raises in the
  source. The model returns `ok == false` with no cards instead.
- The `word == nil` case of `cardsPlease` (deck_manager.rb:70-72) cannot
  happen, because the pool chosen is never empty. The model proves this rather
  than modelling a crash.
- The constructor's word loop (deck_manager.rb:34-44) is the recursive method
  `Supplier.RouteWords`, one turn of the source loop per call. The drawing loop
  of `loadMore` calls `Scheduler.Draw` as its body. The queueing loop builds the
  new queue and delays in locals and assigns them once. The behaviour is the
  same.
- Scheduler.CardScheduler.Valid does not include the invariants of the
  database and of the supplier. Each operation that needs them requires them
  separately.
- Common.Uniq: states no duplicates and the same elements, not that `uniq!`
  keeps the first occurrences in their original order.

## Findings

| source | as written | input that shows it | evidently intended | confidence | as-written member | corrected member |
|---|---|---|---|---|---|---|
| flashcards.rb:83 | `RandomRemoval#remove` calls `pop`, which the class does not define, so removing a member raises NameError (undefined local variable or method `pop') after the swap; `steal` therefore raises whenever a rival of the stolen word is still in a pool | a deck with the confusion pair (mouse, red), both unseen: a `cardsPlease` that pulls `mouse` while `red` is still in a pool calls `remove(red)` on that pool | `removeEnd`, as in structs.rb:112: the member is dropped and the set shrinks by one | high, not executed | RandomRemoval.RandomRemovalSet.RemoveFirstVersion | RandomRemoval.RandomRemovalSet.Remove |
| flashcards.rb:176-177 | `steal` loops over the rivals with the failing `remove` | as above | every rival leaves both pools of its category | high, not executed | Supplier.CardSupplier.StealFirstVersion | Supplier.CardSupplier.Steal |
| flashcards.rb:452 | `confusion[p1].include?[p2]` calls `include?` with no argument, an ArgumentError, whenever the first word has rivals | `confused(c1, c2)` where `c1`'s word is in any confusion pair | `include?(p2)`, as in deck_manager.rb:309 | high, not executed | WordDb.WordDatabase.ConfusedFirstVersion | WordDb.WordDatabase.Confused |
| deck_manager.rb:29-30 | the pools are made with `RandomRemoval.new`; deck_manager.rb loads only structs.rb (:6), which defines `RandomRemovalSet` (structs.rb:77), so the first turn raises NameError (uninitialized constant) and no supplier is ever built | any deck with at least one category | `RandomRemovalSet.new` | high, not executed | Supplier.MakePoolsAsWritten | Supplier.MakePools |
