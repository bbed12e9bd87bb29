# Cribbage rules engine, modelled in Dafny

This project models the rules engine of a cribbage card-game service: cards and the
52-card deck; the value-equality collections that hands, decks and teams are built on;
the play sequence with its pegging points; the scorer of a five-card cribbage hand
(pairs, fifteens, runs, right jack, flush); cribbage players and teams; and the game
itself. The game covers seating, teams, cutting for dealer, dealing, throwing to the kitty,
the cut and his heels, playing cards, saying go, counting at the end of a round, and
the re-deal.

Each source file has one module:

| module | file | form |
|---|---|---|
| `Cards` | `card.dfy` | datatypes and functions |
| `ItemCollections` | `item_collection.dfy` | a class over a `seq` field, with specification functions |
| `Hands` | `hand.dfy` | class |
| `Decks` | `deck.dfy` | class; the Fisher-Yates shuffle is given as a function and proved to permute |
| `StandardDeck` | `standard_deck.dfy` | the nested loops that build the 52 cards |
| `Teams` | `team.dfy` | base team as a value |
| `CardGame` | `card_game.dfy` | the `Sequence` class, `findPlayer`/`findTeam`, `isSequentialAscending` |
| `CribbageHands` | `cribbage_hand.dfy` | the hand scorer's loops, each proved against a specification function |
| `HandCounts`, `PairCounts`, `RunCounts` | | specification functions of the scorer and their lemmas |
| `CribbageHandExamples` | | the totals of worked hands |
| `CribbagePlayers` | `cribbage_player.dfy` | class |
| `CribbageTeams` | `cribbage_team.dfy` | class |
| `CribbageRules` | `cribbage_rules.dfy` | the kitty's card movements on values |
| `CribbageGame` | `cribbage.dfy` | the `Cribbage` class with every field the game updates |

Some things are stated the same way throughout:

- Objects that the source mutates are classes with `modifies` clauses.
- Every method's `ensures` states its whole new state and result, except on the failure
  paths named under "## Left out".
- What the scorer promises is proved about its specification functions: the score is the
  rule-level sum of pairs, fifteens, runs, the right jack and the flush (`DealtHandScore`).

Where the code departs from the rules of the game, the model follows the code:

- `roundOverResetState` deals the next round even when the count ended the game. In the
  model, `CribbageGame.Cribbage.RoundOverResetState` re-deals in that case too.
- `playCard` and `go` do not check whether the game is already over.
- `initializeGame` sets the number of players before it refuses an invalid count.
- For five players, `deal` empties the kitty and the hands and shuffles before it throws
  `Not Implemented!`.
- `dealForSix` never moves on from the first player after the dealer. That player gets
  five cards and everyone else gets none; this is `CribbageGame.Cribbage.DealForSix`.
- `canPlay` compares card face values with the count. `playCard` and the rules use card
  worth (a face card counts 10). `go` asks `canPlay`, so it judges at face value too:
  `CribbageGame.Cribbage.GoRefusal` and `CribbageGame.Cribbage.Go` model it so, and
  `CribbageGame.Cribbage.GoRefusalAtWorth` is the go judged at worth. See "## Findings".
- The source crashes by reading a property of `null` or `undefined`, or loops forever, in
  some cases. Those are modelled as the errors `Defect` and `Diverges` of `GameError`.
  Examples: a player on no team, `nextPlayerInOrder(null)`, an empty deck at the cut, or
  nobody left in play when the turn must move on.
- Randomness (`Math.random`) becomes parameters:
  - the positions of the shuffle;
  - the index of each draw when cutting for dealer;
  - the index of the cut.

## Model

| member | source | states |
|---|---|---|
| Cards.SuitEnumeration | base_classes/items/card.ts:3-5 | the four suits are enumerated by index and back, one to one |
| Cards.EqualsOther | base_classes/items/card.ts:38-43 | a card equals another exactly when the other is present and has the same suit and value; null and undefined are never equal |
| Cards.ShortString | base_classes/items/card.ts:45-52 | two characters: the digit for 2 to 9, otherwise the first letter of the value's name, then the first letter of the suit's name |
| Cards.ShortStringInjective | base_classes/items/card.ts:45-52 | different cards have different short strings |
| Cards.ToString | base_classes/items/card.ts:54-56 | the value's name, " of ", then the suit's name |
| Cards.ToStringInjective | base_classes/items/card.ts:54-56 | different cards have different long names |
| ItemCollections.FirstIndex | base_classes/collections/item_collection.ts:14-23 | -1 exactly when the item is absent, otherwise the position of its first occurrence |
| ItemCollections.LinearSearch | base_classes/collections/item_collection.ts:14-23 | the search loop returns the first position holding the item, or -1 exactly when none does |
| ItemCollections.ItemCollection.constructor | base_classes/collections/item_collection.ts:6-8 | a collection holds exactly the items given |
| ItemCollections.ItemCollection.IndexOfItem | base_classes/collections/item_collection.ts:14-23 | indexOfItem is the first occurrence, or -1 exactly when absent |
| ItemCollections.ItemCollection.InsertItem | base_classes/collections/item_collection.ts:29-31 | splice(index, 0, item): the item goes in at the clamped position (negative from the end), and the multiset gains exactly it |
| ItemCollections.SpliceStart | base_classes/collections/item_collection.ts:29-31 | where splice puts the item: the index itself within range, the end past it, and length + index (at least 0) for a negative index |
| ItemCollections.ItemCollection.AddItem | base_classes/collections/item_collection.ts:33-35 | the item is appended and the count grows by one |
| ItemCollections.ItemCollection.AddItems | base_classes/collections/item_collection.ts:37-39 | the items are appended in order |
| ItemCollections.ItemCollection.RemoveItem | base_classes/collections/item_collection.ts:41-48 | true exactly when the item was present; its first occurrence is removed and nothing else changes, otherwise the collection is untouched |
| ItemCollections.WithoutMultiset | base_classes/collections/item_collection.ts:41-48 | removing the first occurrence takes exactly one copy out of the multiset, and leaves an absent item's collection as it was |
| ItemCollections.WithoutAppended | base_classes/collections/item_collection.ts:41-48 | removing an item just appended (and absent before) restores the collection |
| ItemCollections.ItemCollection.RemoveAll | base_classes/collections/item_collection.ts:50-52 | the collection is emptied |
| ItemCollections.ItemCollection.ItemAt | base_classes/collections/item_collection.ts:54-59 | throws exactly below 0 or above the length; the item at 0..length-1; undefined (None) at the length itself |
| ItemCollections.ItemCollection.EqualsOther | base_classes/collections/item_collection.ts:61-77 | true exactly when every item of this collection occurs in the other (a one-way cover) |
| ItemCollections.CoversIsOneWay | base_classes/collections/item_collection.ts:61-77 | the cover is not symmetric: [1] covers [1, 2] but not the reverse |
| Hands.Hand.PlayCard | base_classes/collections/hand.ts:10-17 | true exactly when the card was held; its first copy leaves the hand and the multiset loses exactly it |
| Hands.Hand.TakeCard | base_classes/collections/hand.ts:19-26 | a card not yet held is appended and true is returned; a held card leaves the hand unchanged; either way the card is held afterwards |
| Hands.Hand.SortCards | base_classes/collections/hand.ts:28-32 | the stable sort by value: sorted by value and a permutation of the hand |
| Sorting.InsertByFacts | base_classes/collections/hand.ts:28-32 | inserting one card into a sorted hand keeps it sorted and adds exactly that card |
| Sorting.InsertByAtEnd | base_classes/collections/hand.ts:28-32 | a card no smaller than every card goes last, so equal cards keep their order |
| Sorting.SortByFacts | base_classes/collections/hand.ts:28-32 | the insertion sort that models Array.sort gives a sorted permutation of the same length |
| Sorting.SortBySorted | base_classes/collections/hand.ts:28-32 | sorting an already sorted sequence leaves it unchanged (stability) |
| Hands.Hand.ToShortString | base_classes/collections/hand.ts:43-49 | the short strings of the cards in order, joined by single spaces |
| Hands.JoinLayout | base_classes/collections/hand.ts:43-49 | joining two-character parts with spaces puts part i at 3i and a space at 3i+2 |
| Hands.Hand.constructor | base_classes/collections/hand.ts:6-8 | a hand holds exactly the cards given |
| Hands.Hand.AddItem | base_classes/collections/item_collection.ts:33-35 | the card is appended and the size grows by one |
| Hands.Hand.AddItems | base_classes/collections/item_collection.ts:37-39 | the cards are appended in order and the size grows by their number |
| Hands.Hand.RemoveItem | base_classes/collections/item_collection.ts:41-48 | true exactly when the card was held; its first copy is removed (one fewer of it in the multiset of cards), and otherwise nothing changes |
| Hands.Hand.RemoveAll | base_classes/collections/item_collection.ts:50-52 | the hand is emptied and its size is 0 |
| Decks.FisherYatesPermutes | base_classes/collections/deck.ts:19-27 | the swap loop, for any positions, permutes the cards |
| Decks.Swap | base_classes/collections/deck.ts:24-26 | the two positions exchange their cards and every other position keeps its card |
| Decks.SwapMultiset | base_classes/collections/deck.ts:24-26 | one exchange keeps the same cards |
| Decks.ShuffledPermutes | base_classes/collections/deck.ts:13-28 | a shuffle returns the removed cards to the deck and then permutes the whole |
| Decks.Deck.Shuffle | base_classes/collections/deck.ts:13-28 | the deck becomes Shuffled(items, removed, positions); nothing stays removed; the same cards overall |
| Decks.Deck.constructor | base_classes/collections/deck.ts:8-11 | a deck holds the cards given and has removed none |
| Decks.Deck.Draw | base_classes/collections/deck.ts:30-34 | the top card is taken off and recorded as removed |
| Decks.Deck.RandomDraw | base_classes/collections/deck.ts:36-44 | the card at the index; without replacement it leaves the deck for the removed cards, with replacement nothing changes |
| Decks.Deck.GetCards | base_classes/collections/deck.ts:46-52 | a copy of the cards in the deck |
| StandardDeck.PositionRoundTrip | implementations/standard_deck.ts:10-15 | the card at a card's position is that card |
| StandardDeck.CardAt | implementations/standard_deck.ts:10-15 | position p holds the suit p / 13 (hearts, spades, diamonds, clubs) and the value p % 13 + 1, and the card at p has position p |
| StandardDeck.StandardOrder | implementations/standard_deck.ts:10-15 | 52 cards, position p holding the card at p |
| StandardDeck.StandardOrderComplete | implementations/standard_deck.ts:10-15 | every card of every suit and value is in the deck |
| StandardDeck.StandardOrderDistinct | implementations/standard_deck.ts:10-15 | no card is in the deck twice |
| StandardDeck.StandardCards | implementations/standard_deck.ts:5-17 | the nested suit and value loops build the 52 cards suit by suit, ace to king |
| StandardDeck.NewStandardDeck | implementations/standard_deck.ts:5-17 | a new deck of those 52 cards with nothing removed |
| Teams.PlayerAt | base_classes/collections/team.ts:17-19 | itemAt on the members: a failure exactly out of range, the member within range, none at the length |
| Teams.HasPlayer | base_classes/collections/team.ts:21-23 | true exactly when some member has the name |
| Teams.EqualsOther | base_classes/collections/team.ts:25-27 | teams are equal exactly when their ids are |
| CardGame.RemoveLastTwoChars | base_classes/card_game.ts:8-18 | a prefix, two characters shorter (one character stays as it is, an empty string stays empty) |
| CardGame.RemoveLastTwoCharsUndoesSeparator | base_classes/card_game.ts:8-18 | it removes the trailing ", " that the list builders append |
| CardGame.FindPlayer | base_classes/card_game.ts:29-39 | the first seat with the name, or none exactly when no player has it |
| CardGame.TeamOf | base_classes/card_game.ts:49-60 | the first team that has the player, or none exactly when no team has the player |
| CardGame.FindTeam | base_classes/card_game.ts:49-60 | the loop finds the same team TeamOf defines |
| CardGame.Sequence.AddCard | base_classes/card_game.ts:82-90 | a card already in the sequence is refused and nothing changes; otherwise it is appended and the points of the new sequence are returned |
| CardGame.Sequence.constructor | base_classes/card_game.ts:78-80 | a new sequence is empty |
| CardGame.Sequence.CountPoints | base_classes/card_game.ts:102-104 | the run points plus the of-a-kind points of the sequence |
| CardGame.Sequence.RemoveAll | base_classes/card_game.ts:106-108 | the sequence is emptied |
| CardGame.Sequence.EqualsOther | base_classes/card_game.ts:119-131 | equal exactly when the two sequences hold the same cards in the same order |
| CardGame.IsSequentialAscending | base_classes/card_game.ts:133-155 | fewer than three values are sequential; otherwise the values are sorted in place and are sequential exactly when they are consecutive (distinct, spanning max - min + 1) |
| CardGame.StepsUp | base_classes/card_game.ts:142-153 | the scan over sorted values succeeds exactly when each value is one more than the last |
| CardGame.SortedStepsIffConsecutive | base_classes/card_game.ts:133-155 | sorted values step by one exactly when the values are consecutive |
| CardGame.ConsecutivePermutation | base_classes/card_game.ts:133-155 | being consecutive does not depend on the order of the values |
| CardGame.SixFiveSevenIsARun | spec/TwoPlayerCribbageSpec.ts:971-978 | 6, 5, 7 are sequential though not laid in order |
| CardGame.RepeatNotConsecutive | base_classes/card_game.ts:142-153 | values with a repeat are never sequential |
| CardGame.LongestTail | base_classes/card_game.ts:157-172 | the longest suffix of three or more cards whose values are consecutive, or 0 |
| CardGame.Sequence.FindLongestReverseSequence | base_classes/card_game.ts:157-172 | the loop from the back returns that run score |
| CardGame.OfAKindPoints | base_classes/card_game.ts:187 | 1, 2 and 3 matches score 2, 6 and 12; none scores 0 |
| CardGame.MatchesBack | base_classes/card_game.ts:174-186 | the cards before the last that match its value without a break |
| CardGame.Sequence.CountOfAKind | base_classes/card_game.ts:174-188 | the of-a-kind points of the unbroken matches at the end of the sequence |
| CardGame.RunOutOfOrderScoresThree | spec/TwoPlayerCribbageSpec.ts:971-987 | 7, 5, 6, 5, 7 played in that order score 3 for the run 5-6-7 at the end |
| CardGame.PairOnlyCountsWhenAdjacent | base_classes/card_game.ts:174-188 | a pair scores only when it ends the sequence |
| CardGame.FourOfAKindScoresTwelve | base_classes/card_game.ts:174-188 | four of a kind laid in a row scores 12 |
| CribbageHands.CardValue | implementations/cribbage_hand.ts:58-65 | the worth of a card: its value up to 10, and 10 for a face card |
| CribbageHands.FifteensCountSubsets | implementations/cribbage_hand.ts:198-210 | the recursive search from position j with a running total counts exactly the sets of later cards whose worth sums to 15 |
| CribbageHands.CountFifteens | implementations/cribbage_hand.ts:198-210 | countFifteens scores 2 for each choice of the five cards summing to 15 |
| CribbageHands.MaxSuitCount | implementations/cribbage_hand.ts:167-187 | the largest of the four suit counts |
| CribbageHands.CountFlush | implementations/cribbage_hand.ts:167-187 | the counting loop returns that largest suit count |
| CribbageHands.MaxSuitCountBounds | implementations/cribbage_hand.ts:167-187 | the largest suit count is at most the number of cards, with equality exactly when all cards share a suit |
| CribbageHands.FlushIsOneSuit | implementations/cribbage_hand.ts:167-187 | the largest suit count is the number of cards exactly when every card has the first card's suit |
| CribbageHands.FlushScores | implementations/cribbage_hand.ts:36-54 | the flush scores 5 exactly when all five cards share a suit; 4 exactly when the four held cards do, the cut does not, and a five-card flush is not required; otherwise 0 |
| CribbageHands.ScoreFlush | implementations/cribbage_hand.ts:36-54 | the flush points; the hand ends as it was, or with the cut moved to the end after the four-card check |
| CribbageHands.FindDuplicates | implementations/cribbage_hand.ts:67-82 | afterwards the hand holds one card per value, strictly ascending; the removed duplicates are in non-increasing order, and hand plus duplicates is the original multiset |
| CribbageHands.DuplicatesSplit | implementations/cribbage_hand.ts:67-82 | that split is unique: the hand's values are the distinct values present, and the duplicates' values are each value's extra copies |
| CribbageHands.CountPairs | implementations/cribbage_hand.ts:88-105 | the pair points: 2, 6 or 12 per value held twice, three or four times |
| CribbageHands.SpliceMatches | implementations/cribbage_hand.ts:93-101 | the inner loop takes the later copies of a duplicate value out of the list and counts the matches, one more than those copies |
| CribbageHands.ScoreDuplicates | implementations/cribbage_hand.ts:88-105 | the outer loop over the duplicates returns 2 for every pair of equal values among them |
| PairCounts.MatchPoints | implementations/cribbage_hand.ts:102 | 1 match scores 2, 2 matches 6, and more 12 |
| PairCounts.PairScoreIsTwoPerPair | implementations/cribbage_hand.ts:88-105 | those points are 2 for every pair of cards with equal values |
| PairCounts.AtMostFourOfAValue | implementations/cribbage_hand.ts:102 | a hand without a repeated card holds at most four of a value, so 12 is the largest group |
| CribbageHands.FindLongestRun | implementations/cribbage_hand.ts:114-141 | the recursive scan returns the longest window of values stepping by one (the first found on a tie) |
| CribbageHands.CheckPrefix | implementations/cribbage_hand.ts:120-128 | the first k cards of an ascending hand form a run exactly when k is at most the length of the run at its start |
| CribbageHands.ExtendRun | implementations/cribbage_hand.ts:115-137 | one step of the scan: the longer of the run found at the front of the hand and the best run so far |
| RunCounts.RunFromIsLongest | implementations/cribbage_hand.ts:114-141 | the scan never shortens the best run so far, and no window of consecutive values is longer than its result |
| RunCounts.BestRunIsLongest | implementations/cribbage_hand.ts:114-141 | that run is empty or a window of three or more consecutive values, and no window of the distinct values is longer |
| CribbageHands.MultiplyRuns | implementations/cribbage_hand.ts:147-162 | the multiplier loop over the duplicates: +1 on a repeated duplicate value in the run, x2 on a new one |
| RunCounts.StepOverDistinct | implementations/cribbage_hand.ts:147-162 | one duplicate in the run adds 1 to the multiplier when it repeats the last duplicate's value, and doubles it otherwise; one outside the run leaves it |
| RunCounts.RunWaysTwo | implementations/cribbage_hand.ts:143-162 | with at most two values held more than once, the ways to form the run are the product of their counts |
| RunCounts.FiveCardRunMultiplier | implementations/cribbage_hand.ts:143-162 | for five cards with a run, that multiplier is the number of ways to form the run (the product of the counts of its values) |
| RunCounts.RunLeavesTwoDuplicates | implementations/cribbage_hand.ts:143-162 | five cards with a run of three have at most two duplicates |
| CribbageHands.CountRuns | implementations/cribbage_hand.ts:107-165 | the run length and the number of runs that the hand's record defines |
| CribbageHands.WithCut | implementations/cribbage_hand.ts:22 | takeCard(cut): the cut is appended unless already held |
| CribbageHands.ScoreAddsUp | implementations/cribbage_hand.ts:20-56 | the parts countPoints adds make the hand's score |
| CribbageHands.CountPoints | implementations/cribbage_hand.ts:20-56 | countPoints returns the hand's score with the cut; the hand keeps the cut, moved to the end when the four-card flush was checked |
| CribbageHands.DealtHandScore | implementations/cribbage_hand.ts:20-56 | a four-card hand with a new cut scores 2 per pair, 2 per fifteen, run length times the ways to form it, 1 for the right jack, and a flush of 0, 4 or 5 |
| CribbageHandExamples.DD | spec/CribbageHandSpec.ts:142-150 | 8-8-9-9 with a 10 cut scores 16 |
| CribbageHandExamples.TripleRun | spec/CribbageHandSpec.ts:151-159 | 8-8-8-9 with a 10 cut scores 15 |
| CribbageHandExamples.DoubleRunWithFifteens | spec/CribbageHandSpec.ts:70-78 | 2-3-3-J with a 4 cut scores 12 |
| CribbageHandExamples.FifteenAndPair | spec/CribbageHandSpec.ts:43-51 | A-4-8-8 with a queen cut scores 4: one fifteen (A-4-Q) and the pair of eights, no run, flush or right jack |
| CribbagePlayers.CribbagePlayer.constructor | implementations/cribbage_player.ts:21-25 | a new player has the name and hand given, no played cards and 0 points |
| CribbagePlayers.CribbagePlayer.EqualsOther | base_classes/items/player.ts:23-29 | players are equal exactly when the other is present and has the same name |
| CribbagePlayers.CribbagePlayer.AddPoints | implementations/cribbage_player.ts:26-28 | the points grow by the amount |
| CribbagePlayers.CribbagePlayer.PlayCard | implementations/cribbage_player.ts:29-36 | a held card leaves the hand and joins the played cards; otherwise nothing changes |
| CribbagePlayers.CribbagePlayer.PlayFromHand | base_classes/items/player.ts:15-17 | the hand's own playCard, used when throwing to the kitty: the played cards are not touched |
| CribbagePlayers.CribbagePlayer.TakeCard | implementations/cribbage_player.ts:37-39 | the hand's takeCard |
| CribbagePlayers.CribbagePlayer.CanPlay | implementations/cribbage_player.ts:40-49 | as written: true exactly when some held card's face value keeps the count at or below 31 |
| CribbagePlayers.CribbagePlayer.CanPlayAtWorth | implementations/cribbage_player.ts:40-49 | true exactly when some held card's worth keeps the count at or below 31 |
| CribbagePlayers.KingAtTwentyOne | implementations/cribbage_player.ts:40-49 | a lone king at a count of 21 does not fit at face value, yet fits at its worth and makes exactly 31 |
| CribbagePlayers.FitsAtWorthHeld | implementations/cribbage_player.ts:40-49 | a card that fits at face value fits at its worth |
| CribbagePlayers.CribbagePlayer.ResetCards | implementations/cribbage_player.ts:50-53 | no cards held and none played |
| CribbagePlayers.CribbagePlayer.SortHand | implementations/cribbage.ts:620-623 | the hand's sortCards as printHand calls it: the stable sort by value, sorted and a permutation of the hand |
| CribbagePlayers.CribbagePlayer.CountPoints | implementations/cribbage_player.ts:54-59 | the played cards go back into the hand, and a copy of the hand is scored with the cut under the four-card flush rule |
| CribbagePlayers.PlayThenReset | spec/CribbagePlayerSpec.ts:18-31 | Bob plays the ace of spades from four cards: it is held, three cards stay, the ace is the one played card, and resetCards empties both |
| CribbagePlayers.Names | base_classes/card_game.ts:29-39 | the players' names, seat by seat |
| CribbageTeams.CribbageTeam.HasPlayer | implementations/cribbage_team.ts:36-38 | true exactly when some member has the name |
| CribbageTeams.CribbageTeam.CountPoints | implementations/cribbage_team.ts:13-19 | the sum of the members' points |
| CribbageTeams.SumUpdate | implementations/cribbage_team.ts:27-34 | adding to one member adds the same amount to the team's total |
| CribbageTeams.PointsOf | implementations/cribbage_team.ts:13-19 | the members' points, member by member |
| CribbageTeams.CribbageTeam.constructor | implementations/cribbage_team.ts:9-11 | a team has the id and members given |
| CribbageTeams.CribbageTeam.AddPoints | implementations/cribbage_team.ts:27-34 | a player not on the team is refused and nothing changes; otherwise only that member's points grow, and the answer is whether the total passed 120 |
| CribbageTeams.TeamTotalExample | spec/CribbageTeamSpec.ts:29-41 | two members given 2 and 7 points make a team total of 9 |
| CribbageTeams.TotalOfTwo | implementations/cribbage_team.ts:13-19 | a team of two totals its two members' points |
| CribbageTeams.BobAndSteve | spec/CribbageTeamSpec.ts:37-41 | a team of Bob and Steve has both, Bob first |
| CribbageTeams.TeamMembersExample | spec/CribbageTeamSpec.ts:37-41 | the team has Bob and Steve and not Alice |
| CribbageRules.ThrownLeaves | implementations/cribbage.ts:306-309 | the thrown cards leave the hand exactly once each |
| CribbageRules.StuckKeepsCards | implementations/cribbage.ts:306-309 | when a thrown card is not held, the hand keeps more than it should |
| CribbageRules.HeldRemovable | implementations/cribbage.ts:268-285 | held cards, one or two different ones, can all be thrown |
| CribbageRules.TakenHolds | implementations/cribbage.ts:310-315 | the kitty takes each thrown card it does not yet hold and keeps its own, with no card twice |
| CribbageGame.DealCards | implementations/cribbage.ts:855-888 | the round-robin deal from the seat after the dealer: each seat j gets the cards at j, j + n, j + 2n, ... of the deck |
| CribbageGame.Dealt | implementations/cribbage.ts:855-888 | a seat dealt k times holds k cards |
| CribbageGame.DealtAt | implementations/cribbage.ts:855-888 | the i-th card of seat j is the card at i * n + j of the deck |
| CribbageGame.PicksDealt | implementations/cribbage.ts:855-888 | after k turns round the table the seat j places on holds exactly those k cards |
| CribbageGame.FirstLowest | implementations/cribbage.ts:734-744 | the first card of lowest value: lower than every card before it, and no higher than any |
| CribbageGame.CutCards | implementations/cribbage.ts:736-742 | numPlayers draws without replacement; fewer only when the deck runs out |
| CribbageGame.HandGain | implementations/cribbage_player.ts:54-59 | a player's cards with the cut, scored under the four-card flush rule |
| CribbageGame.KittyGain | implementations/cribbage.ts:714-717 | the kitty with the cut, where only a five-card flush counts |
| CribbageGame.KittyAfterCount | implementations/cribbage.ts:717 | playCard(cut) on the counted kitty: a kitty without the cut is left as it was |
| CribbageGame.ScoreHand | implementations/cribbage_player.ts:54-59 | a seat's hand and played cards are scored with the cut; the played cards join the hand and none stay played |
| CribbageGame.ScoreKitty | implementations/cribbage.ts:716-717 | the kitty is scored with the cut under the five-card flush rule, then the cut leaves it |
| CribbageGame.PrintHand | implementations/cribbage.ts:620-623 | printHand on a seat's hand: that hand is sorted by value, a permutation of what it was, and nothing else at the table changes |
| CribbageGame.ListKitty | implementations/cribbage.ts:620-623 | printHand on the kitty: the kitty is sorted by value, a permutation of what it was, and nothing else at the table changes |
| CribbageGame.CountSeat | implementations/cribbage.ts:705-724 | one turn of the count: a seat's hand and played cards are scored and credited to its team and, unless that ends the game, the hand is left sorted by value (printHand); at the dealer's seat the kitty is then scored, the cut leaves it, and unless that ends the game it is left sorted too |
| CribbageGame.StepCounted | implementations/cribbage.ts:705-727 | one more seat counted keeps the count's invariant |
| CribbageGame.AllCounted | implementations/cribbage.ts:705-727 | once the loop is back at the first seat, every seat has counted, the dealer last with the kitty |
| CribbageGame.CountRound | implementations/cribbage.ts:701-729 | the loop from the seat after the dealer round to the dealer stops at the first team past 120; every hand counted before the stop, and the kitty when the count completes, is left sorted by value; the hand or kitty whose points ended the game is not |
| CribbageGame.Credit | implementations/cribbage_team.ts:27-34 | a seat's team credits it: the seat gains the amount and the answer is whether the team passed 120 |
| CribbageGame.PegPoints | implementations/cribbage.ts:372-394 | the sequence's points, plus 2 exactly at a count of 15 or 31 |
| CribbageGame.FromNextSeat | implementations/cribbage.ts:449-451 | handing the turn to the next seat and then on lands on the first seat in play after the player |
| CribbageGame.Cribbage.constructor | implementations/cribbage.ts:150-158 | a new game: no dealer, cut, next or last player, winner or teams; empty kitty and sequence; a standard deck; not begun |
| CribbageGame.Cribbage.SeatOf | implementations/cribbage.ts:634-645 | the seat of the player with the name, or none exactly when nobody has it |
| CribbageGame.Cribbage.FindSeat | implementations/cribbage.ts:634-645 | the findPlayer loop finds that seat |
| CribbageGame.Cribbage.NextInOrder | implementations/cribbage.ts:923-932 | the next seat, wrapping to seat 0 after the last of numPlayers |
| CribbageGame.Cribbage.TeamOfSeat | implementations/cribbage.ts:939-949 | the first team holding the player, or none exactly when no team does |
| CribbageGame.Cribbage.SetGameOver | implementations/cribbage.ts:588-601 | the team becomes the winner and the response says the game is over |
| CribbageGame.Cribbage.AddPlayer | implementations/cribbage.ts:522-532 | a name already seated is refused, then a game already begun; otherwise the player takes the next seat |
| CribbageGame.Cribbage.MakeTeams | implementations/cribbage.ts:160-189 | team play pairs seats 0-2 and 1-3 with four players, and 0-3, 1-4 and 2-5 with six; otherwise one team per player, ids from 1 |
| CribbageGame.Cribbage.InitializeGame | implementations/cribbage.ts:197-207 | numPlayers is set; fewer than 2 or more than 6 players are refused; four or six play in teams; the winner is cleared and the teams are made |
| CribbageGame.Cribbage.SetNextDealer | implementations/cribbage.ts:913-916 | the deal passes one seat on and play starts after the new dealer |
| CribbageGame.Cribbage.DealOutcome | implementations/cribbage.ts:763-787 | a deal succeeds only for 2, 3, 4 or 6 players with a dealer; otherwise invalid count, not implemented, or a crash or endless loop of the source |
| CribbageGame.Cribbage.ResetSequence | implementations/cribbage.ts:820-835 | the count is 0, nobody has played last, the sequence is empty; the players in play are, in seat order, exactly those holding cards; the turn goes after the named player |
| CribbageGame.Cribbage.SetNextPlayerInSequence | implementations/cribbage.ts:796-813 | when the turn is the player's or its holder is out of play, it moves round to the first seat in play; with nobody in play the loop never ends |
| CribbageGame.Cribbage.RoundOver | implementations/cribbage.ts:682-691 | true exactly when no player holds a card |
| CribbageGame.Cribbage.CutForDealer | implementations/cribbage.ts:734-744 | each player cuts one card; the first lowest cut deals, and play starts after the dealer |
| CribbageGame.Cribbage.DealRound | implementations/cribbage.ts:855-888 | dealForTwo, dealForThree and dealForFour: the round-robin deal until every hand holds 6 or 5 cards |
| CribbageGame.Cribbage.DealForSix | implementations/cribbage.ts:900-908 | as written: only the player after the dealer is dealt five cards |
| CribbageGame.Cribbage.SixDealOutcome | implementations/cribbage.ts:900-908 | the six-player deal fails only by a crash (no dealing team) or an endless loop (the seat after the dealer on the dealer's side) |
| CribbageGame.Cribbage.KittyDealt | implementations/cribbage.ts:876 | at most one card goes to the kitty in the deal |
| CribbageGame.Cribbage.ClearAndShuffle | implementations/cribbage.ts:749-753 | the kitty and the seated players' hands are emptied and the deck is shuffled with every card back in it |
| CribbageGame.Cribbage.DealHands | implementations/cribbage.ts:767-785 | the deal by number of players: its outcome, and on success the hands dealt from the shuffled deck |
| CribbageGame.Cribbage.DealAround | implementations/cribbage.ts:855-888 | two to four players are dealt round the table from the seat after the dealer |
| CribbageGame.Cribbage.Deal | implementations/cribbage.ts:763-787 | kitty and hands are cleared, the deck shuffled, the hands and (with three players) the kitty dealt from it, and the players holding cards are in play again; five players and other counts are refused |
| CribbageGame.Cribbage.Begin | implementations/cribbage.ts:236-246 | a begun game is refused; otherwise initializeGame, cutForDealer and deal, stopping at the first failure |
| CribbageGame.Cribbage.SetUp | implementations/cribbage.ts:236-246 | the steps of begin: an invalid count is refused, five players are not implemented, two to four players start |
| CribbageGame.Cribbage.CutAndDeal | implementations/cribbage.ts:241-243 | cutForDealer then deal: a deck too small to cut fails, otherwise the deal's outcome with a dealer chosen |
| CribbageGame.Cribbage.DealOpening | implementations/cribbage.ts:243 | the first deal after the dealer is chosen, with its outcome |
| CribbageGame.Cribbage.CountPoints | implementations/cribbage.ts:701-729 | every seat from the one after the dealer round to the dealer has its cards scored and credited, the dealer the kitty too, until a team passes 120 and wins; each hand and the kitty is left sorted by value once listed, which is every one but the hand or kitty whose points won |
| CribbageGame.Cribbage.KittyRefusal | implementations/cribbage.ts:258-305 | giveToKitty's refusals, in order: unknown player, full kitty, a card not held, the wrong number of cards or a duplicate, a thrower on the dealer's side |
| CribbageGame.Cribbage.CheckThrow | implementations/cribbage.ts:260-305 | the checks before a throw find exactly the refusal KittyRefusal defines, and the thrower's seat |
| CribbageGame.Cribbage.CheckCount | implementations/cribbage.ts:277-305 | two players throw two different cards; three to six throw one; with five the dealer may not; with six nobody on the dealer's team may |
| CribbageGame.Cribbage.DealerOnTeam | implementations/cribbage.ts:296-303 | a thrower with no team is a crash; otherwise refused exactly when the dealer is on the thrower's team |
| CribbageGame.Cribbage.Throw | implementations/cribbage.ts:306-315 | the cards leave the thrower's hand one by one, and the kitty takes each one it does not hold |
| CribbageGame.Cribbage.CutTheDeck | implementations/cribbage.ts:840-842 | the card at the index is drawn without replacement and becomes the cut |
| CribbageGame.Cribbage.HisHeels | implementations/cribbage.ts:319-329 | a jack cut gives the dealer's team 2 points, and that team wins if it passes 120 |
| CribbageGame.Cribbage.Award | implementations/cribbage.ts:321-325 | a seat with no team is a crash with nothing changed; otherwise its team gains the amount and wins if past 120 |
| CribbageGame.Cribbage.AwardTeam | implementations/cribbage.ts:322-325 | the seat gains the amount and its team wins exactly when past 120 |
| CribbageGame.Cribbage.AwardAtTable | implementations/cribbage.ts:491-497 | the last player to play gains a point for the go, and the team wins if past 120 |
| CribbageGame.Cribbage.CutAndScore | implementations/cribbage.ts:316-330 | with an empty deck the cut fails and nothing changes; otherwise the card at the index becomes the cut and his heels is paid |
| CribbageGame.Cribbage.Accept | implementations/cribbage.ts:306-330 | the cards leave the hand and enter the kitty; when the kitty is then full, the deck is cut and his heels paid |
| CribbageGame.Cribbage.GiveToKitty | implementations/cribbage.ts:258-332 | a refused throw changes nothing; otherwise the cards go to the kitty, and a full kitty brings the cut and his heels |
| CribbageGame.Cribbage.RoundOverResetState | implementations/cribbage.ts:669-676 | the round is counted, the cut and last player cleared, the deal passed on and the next round dealt, even when the count ended the game |
| CribbageGame.Cribbage.CountThenDeal | implementations/cribbage.ts:669-676 | the count, then the next round dealt whatever the count gave |
| CribbageGame.Cribbage.NextRound | implementations/cribbage.ts:671-674 | cut cleared, deal passed on, and the next round dealt from the reshuffled deck |
| CribbageGame.Cribbage.DealNext | implementations/cribbage.ts:674 | the next round is dealt from the reshuffled deck, points untouched |
| CribbageGame.Cribbage.PlayRefusal | implementations/cribbage.ts:348-362 | playCard's refusals, in order: kitty not full, not the next player, a card worth taking the count past 31 |
| CribbageGame.Cribbage.CheckPlay | implementations/cribbage.ts:348-362 | the checks before a play find exactly the refusal PlayRefusal defines, and the player's seat |
| CribbageGame.Cribbage.GoRefusal | implementations/cribbage.ts:472-484 | go's refusals, in order: unknown player, a card that fits the count at face value (canPlay), out of play, not the next player; none exactly when the player is known, holds no card fitting at face value, is in play and is next |
| CribbageGame.Cribbage.GoRefusalAtWorth | implementations/cribbage.ts:472-484 | the same refusals in the same order, with a card judged to fit at its worth, as playCard judges it |
| CribbageGame.Cribbage.GoAtWorthStricter | implementations/cribbage.ts:476-478 | every go the worth-judged refusals accept, the go as written accepts too |
| CribbageGame.Cribbage.CheckGo | implementations/cribbage.ts:472-484 | the checks before a go, asking the player's canPlay, find exactly the refusal GoRefusal defines, and the player's seat |
| CribbageGame.Cribbage.GoOnlyWhenStuck | implementations/cribbage.ts:476-478 | with go judged at worth and the kitty full, an accepted go comes only from a player all of whose cards playCard would refuse for passing 31 |
| CribbageGame.Cribbage.GoAtTwentyOne | implementations/cribbage.ts:476-478 | at a count of 21 with a lone King in hand, the go as written is accepted, the worth-judged go is refused as PlayerCanPlay, and playCard would accept the King |
| CribbageGame.Cribbage.Peg | implementations/cribbage.ts:372-394 | a laid card's points go to the player's team, first the sequence's then 2 at 15 or 31, and the game ends at once when the team passes 120 |
| CribbageGame.Cribbage.PegSome | implementations/cribbage.ts:373-394 | points are pegged for a seat whose team is known: the sequence's, then 2 at 15 or 31, stopping early when the team passes 120 |
| CribbageGame.Cribbage.PegTeam | implementations/cribbage.ts:373-394 | the same for a given team: the seat gains the run points, or those plus 2, and the team wins if past 120 |
| CribbageGame.Cribbage.PlayFromSeat | implementations/cribbage.ts:363-365 | a card is played from a seat: removed from the hand, and added to the played cards exactly when it was held |
| CribbageGame.Cribbage.Lay | implementations/cribbage.ts:363-372 | a card not held changes nothing; a held card leaves the hand for the played cards, and the count, the sequence and the last player are updated |
| CribbageGame.Cribbage.Record | implementations/cribbage.ts:366-372 | the player played last, leaves play with an empty hand, the count grows by the card's worth, and the card joins the sequence unless already in it |
| CribbageGame.Cribbage.RemoveFromPlay | implementations/cribbage.ts:367-370 | the seat leaves the players in play and nothing else changes |
| CribbageGame.Cribbage.PassTurn | implementations/cribbage.ts:449-453 | the turn goes to the next seat in order and then on to the first seat in play |
| CribbageGame.Cribbage.PassFromSeat | implementations/cribbage.ts:512 | the turn moves from the seat to the first seat in play after it |
| CribbageGame.Cribbage.PassFromNextSeat | implementations/cribbage.ts:450-451 | starting from the next seat in order, the turn moves to the first seat in play |
| CribbageGame.Cribbage.Proceed | implementations/cribbage.ts:395-448 | after the points: the round ends when no hands hold cards (with a go point unless the count is 31); otherwise at 31, or with nobody left in play, the sequence restarts; otherwise the turn passes |
| CribbageGame.Cribbage.EndRound | implementations/cribbage.ts:395-422 | the last card of the round: a go point unless at 31, then the count and the next deal |
| CribbageGame.Cribbage.MidRound | implementations/cribbage.ts:423-448 | at 31 the sequence restarts after the player; with nobody in play a go point, then a restart; otherwise the turn passes |
| CribbageGame.Cribbage.Score | implementations/cribbage.ts:373-448 | the points of a laid card, then, unless the game is over, what comes next |
| CribbageGame.Cribbage.PlaySeat | implementations/cribbage.ts:356-454 | an accepted card from a seat, as PlayCard states it |
| CribbageGame.Cribbage.RestartAfter | implementations/cribbage.ts:426-427 | resetSequence(player) then setNextPlayerInSequence: count 0, sequence empty, play restored, the turn after the player |
| CribbageGame.Cribbage.RestartFromSeat | implementations/cribbage.ts:441-442 | resetSequence(null) then setNextPlayerInSequence: the same, with the turn from the current next player |
| CribbageGame.Cribbage.Restart | implementations/cribbage.ts:506-507 | a restart that leaves the points, the hands, the played cards and the deck alone |
| CribbageGame.Cribbage.GoPoint | implementations/cribbage.ts:433-442 | the go point to the player's team, and the game ends or the sequence restarts |
| CribbageGame.Cribbage.RestartAfterPoint | implementations/cribbage.ts:440-442 | after a go point that did not end the game, the sequence restarts |
| CribbageGame.Cribbage.PointThenReset | implementations/cribbage.ts:397-414 | an optional go point, then, unless the game ended, the count and the next deal |
| CribbageGame.Cribbage.GiveThenReset | implementations/cribbage.ts:400-414 | a go point, then, unless the game ended, the count and the next deal |
| CribbageGame.Cribbage.ResetAfterPoint | implementations/cribbage.ts:498-500 | after a go point that did not end the game, the round ends with the count and the next deal |
| CribbageGame.Cribbage.ResetRound | implementations/cribbage.ts:414 | roundOverResetState inside play: the count and the next deal from the reshuffled deck |
| CribbageGame.Cribbage.PlayCard | implementations/cribbage.ts:345-459 | a refused card changes nothing; otherwise the held card leaves the hand for the count and the sequence, the points are pegged, and play proceeds |
| CribbageGame.Cribbage.Go | implementations/cribbage.ts:470-515 | a go refused as GoRefusal (judged at face value) defines changes nothing; otherwise the player leaves play, and when nobody is left the last player to play gets a point for the go and the round ends or the sequence restarts |
| CribbageGame.Cribbage.GoFrom | implementations/cribbage.ts:486-513 | the accepted go: the player leaves play and the go goes on |
| CribbageGame.Cribbage.GoOn | implementations/cribbage.ts:489-513 | with others still in play the turn passes on; otherwise the go point, then the end of the game, the end of the round, or a restarted sequence |

## Left out

- Decks.Deck.Draw: it requires a non-empty deck. The source's `shift()` on an empty deck returns `undefined` and records it as removed. The deals draw only within the 52 cards, so they never reach that case.
- Decks.Deck.RandomDraw: the index is a parameter within the deck, where `Math.random()` points. An empty deck is handled by the game's cut (`CutTheDeck` reports `Defect`), not by the deck.
- CribbageHands.CountPoints: it requires at least five cards once the cut is taken. `countFifteens` always reads positions 0 to 4, and the source fails on fewer. The game checks this first and reports `Defect`.
- CribbageHands.CountFifteens: it requires at least five cards, for the same reason.
- CardGame.Sequence.CountOfAKind: it requires a non-empty sequence. On an empty one the source calls `itemAt(-1)`, which throws `Index out of bounds!`. `CardGame.Sequence.CountPoints` requires the same.
- CribbageGame.Cribbage.CountPoints: when the count fails part-way (`Defect`), the model says only that the count failed. The source has already merged the counted seats' played cards into their hands.
- CribbageGame.CountSeat: a seat that cannot be counted (no team, or a hand or kitty too small to score) leaves the table as it was in the model. The source has already moved that player's played cards into the hand (cribbage_player.ts:55-56) before it fails, and for a small kitty it has also credited and sorted the dealer's hand.
- CribbageGame.Cribbage.NextInOrder: it requires a seated player. `nextPlayerInOrder(null)` evaluates `null.equalsOther` inside `indexOfItem` and crashes. Callers that can meet an empty seat report `Defect`.
- `CribbageGame.Cribbage.IsReady` (`isReady`, cribbage.ts:213-215) is a predicate that is true exactly when the kitty holds four cards. It carries no separate contract.
- Messages are not modelled. `CribbageReturn.message` is dropped, and so are `describe`, `printScores`, the text of `printHand` (its sorting of the hand it lists is modelled, by `CribbageGame.PrintHand` and `CribbageGame.ListKitty`), `printPlayers`, `roundOverStr`, `teamPointsString`, `printTeam`, `getPlayerHandStr` and `Sequence.toString`. Responses keep only their flags.
- `wonGame` and `getPlayerHand` are lookups for the message layer and are not modelled.
- `ItemCollection.deepCopy` is not modelled. In the model every collection is a value.
- `CribbageHand.makeCopy` is not modelled separately: it copies a card sequence.
- `Sequence.addCards` is not modelled; the game never calls it.
- `Deck.toString` and `Card.toUrlString` are not modelled (fixed and display-only strings).
- `EnumExt` is not modelled. The suits and values are Dafny datatypes and are enumerated directly.
- `Players.addPlayer` and the `Teams` wrapper (`removeAll`, `addTeam`, `numTeams`, `getTeam`) are modelled as plain sequence updates inside the game's methods.
- The dealing for five players (`dealForFive`) throws `Not Implemented!` and is modelled as that error.
- Randomness is not modelled. The shuffle positions, the draw indices and the cut index are parameters, so the model states the outcome for every choice.
- Concurrency and the chat-bot transport around the game are not modelled.

## Findings

| source | as written | input that shows it | evidently intended | confidence | as-written member | corrected member |
|---|---|---|---|---|---|---|
| implementations/cribbage_player.ts:43 | `canPlay` adds a card's face value (Jack 11, Queen 12, King 13) to the count | count 21, hand [King of Spades]: `canPlay` is false, yet `playCard` adds the King's worth 10 and reaches exactly 31, so `go` accepts a go from a player who can play | compare the card's worth (`getCardValue`, face cards 10), as `playCard` does at cribbage.ts:359-361 | not executed | CribbagePlayers.CribbagePlayer.CanPlay, CribbagePlayers.KingAtTwentyOne, CribbageGame.Cribbage.GoAtTwentyOne | CribbagePlayers.CribbagePlayer.CanPlayAtWorth, CribbageGame.Cribbage.GoRefusalAtWorth, CribbageGame.Cribbage.GoOnlyWhenStuck |
