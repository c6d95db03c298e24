# HighSuit in Dafny

A verified model of HighSuit, a console card game in Java. One or two
players (one may be the scripted "Computer") each get five cards from a
freshly shuffled 52-card deck. Each player names a bonus suit and swaps
up to four cards for cards from the top of the deck. The round score is
the hand's best suit total, plus 5 when the bonus suit is that best suit.
Totals build up over one to three rounds. The player with the highest
total wins, and two players sharing the top total is a tie. A leaderboard
keeps the five best averages per round in a comma-separated file. A
replay records every player's turn. The repository also holds three
small exercises on cards, each modelled here: a sorted `Hand` with a
linear search, a "ranked card" scan, and a bubble sort with counters.

Modules, one per Java class:

- `Cards` (`cards.dfy`): `Card`, with its scores, its `compareTo`, `equals`
  and `hashCode`, and its two text forms. Both text forms read back as
  the card.
- `Decks` (`deck.dfy`): the `Deck` class. The deck is built in suit-major
  order. Shuffling is the JDK's Fisher–Yates pass of `Collections.shuffle`,
  driven by a sequence of given draws. Dealing takes from the front.
- `Players` (`player.dfy`): the `Player` class, with suit scores, the best
  suit (lowest index on ties), the round score and the computer's swap
  strategy. It also parses a human's swap line: trim, then `"0"` or
  empty means no swap, then split at whitespace and keep the first four
  distinct valid positions.
- `SwapApplication` (`swap_application.dfy`): the swap loop of
  `playRound`. Positions are sorted in descending order. Each valid
  position removes a card and then appends the deck's top card, and an
  empty deck stops the exchanges.
- `HighSuitGame` (`high_suit.dfy`): the `HighSuit` class. It covers
  `setupGame`, the deal, the turn loop with its replay record,
  `playGame`, the leaderboard insertions of the start loop, the
  winner-or-tie verdict and the replay reset.
- `Scores` (`score_table.dfy`): `ScoreTable` and `ScoreEntry`. Java's
  truncating `/` computes the average, and the compareTo sorts by
  descending average. `addScore` sorts stably and keeps the top five.
  `loadScores` and `saveScores` are modelled on lines of text.
- `Replay` (`game_replay.dfy`): `GameReplay`, `RoundReplay` and
  `PlayerRoundData`. A `PlayerRoundData` is a value, since every list it
  takes is a copy.
- `Hands`, `RankedCards` and `Sorting` (`hand.dfy`, `ranked_card.dfy`,
  `buble_sort.dfy`): the three exercises, on arrays as in the source.
  The bubble sort returns the two counters that the Java prints.
- Shared definitions:
  - `StableSort` models `Collections.sort`/`Arrays.sort` as a stable
    insertion sort by an integer key.
  - `JavaText` models `Integer.parseInt`, `Integer.toString`, `trim`,
    `split` and `equalsIgnoreCase`. `parseInt` reads the decimal digits
    of every script that `Character.digit` knows in the Basic
    Multilingual Plane, not only ASCII ones, so a fullwidth "３" is a
    valid swap position.
  - `Options` and `Seqs` hold small helpers.

Design notes:

- Randomness becomes parameters. The shuffle takes its draws as a
  parameter, and the exercises take their "random" cards as a parameter.
- Console input also becomes parameters. A `TurnInput` carries a human's
  bonus choice and swap line. The player names and the round count are
  parameters of `SetupGame`.
- The computer names its best suit on the hand it was dealt, before
  swapping, and then swaps away its off-suit cards. Its bonus is
  therefore certain when it keeps its hand (`ComputerBonusWithoutSwaps`),
  but it can be lost: `ComputerCanMissBonus` shows a hand whose best suit
  changes after the swap. One might expect the computer always to
  receive the bonus. That holds for the hand it names its suit on
  (`ComputerAlwaysGetsBonus`), but not for a whole turn.
- Java `int` overflow cannot occur at the game's sizes, because scores
  are at most 60 per round and there are at most three rounds. Integers
  are therefore unbounded. `JavaDiv` models Java's truncating division
  for rounds of either sign.

## Model

| member | source | states |
|---|---|---|
| Cards.Score | src/Card.java:72-74 | every card scores between 2 and 11 points |
| Cards.ScoreByRank | src/Card.java:12 | ranks 2..10 score their face value, Jack, Queen and King score 10, the Ace 11 |
| Cards.CompareTo | src/Card.java:76-84 | compareTo answers -1, 0 or 1 |
| Cards.CompareToIsRankOrder | src/Card.java:76-84 | compareTo is antisymmetric and transitive; it is 0 exactly for equal ranks, whatever the suits, and negative exactly for a lower rank |
| Cards.IsBiggerThan | src/Card.java:37-39 | isBiggerThan compares ranks alone; `IsBiggerThanByRank` proves it is a strictly higher rank, i.e. a positive compareTo |
| Cards.Equals | src/Card.java:87-92 | equals on rank and suit; `EqualsIsValueEquality` proves it is equality of the two cards |
| Cards.HashCode | src/Card.java:95-97 | the hash of a card; `HashCodeInjective` proves equal hashes exactly for equal cards |
| Cards.ToSymbol | src/Card.java:46-65 | the short form; `ToSymbolInjective` proves it reads back as the card |
| Cards.ToString | src/Card.java:41-43 | the "rank of suit" form; `ToStringRoundTrip` proves it reads back as the card |
| Cards.IsBiggerThanByRank | src/Card.java:37-39 | isBiggerThan holds iff the rank is strictly higher, iff compareTo is positive; it is irreflexive and asymmetric |
| Cards.EqualsIsValueEquality | src/Card.java:87-92 | equals holds iff rank and suit both agree |
| Cards.HashCodeInjective | src/Card.java:95-97 | equal cards hash alike, and equal hashes mean equal cards |
| Cards.RankOfSymbolInverse | src/Card.java:46-62 | every rank's symbol decodes back to that rank |
| Cards.ToSymbolInjective | src/Card.java:46-65 | the symbol form reads back as the card; distinct cards have distinct symbols |
| Cards.ToSymbolExamples | src/Card.java:46-65 | the ten of Diamonds prints "10♦", the Ace of Spades "A♠", the two of Clubs "2♣" |
| Cards.RankOfNameInverse | src/Card.java:7-8 | every rank name decodes back to its rank |
| Cards.RankName | src/Card.java:25-27 | getRank: the ranks-table entry of the card's rank; `CardNamesInverse` and `RankOfNameInverse` prove it decodes back to that rank |
| Cards.SuitName | src/Card.java:29-31 | getSuit: the suits-table entry of the card's suit; `CardNamesInverse` and `SuitOfNameInverse` prove it decodes back to that suit |
| Cards.SuitOfNameInverse | src/Card.java:9 | every suit name decodes back to its suit |
| Cards.CardNamesInverse | src/Card.java:25-31 | the rank name and suit name of a card decode back to its rank and its suit |
| Cards.ToStringRoundTrip | src/Card.java:41-43 | the "rank of suit" form reads back as the card |
| Cards.ToStringInjective | src/Card.java:41-43 | distinct cards have distinct long forms |
| Cards.ToStringExamples | src/Card.java:41-43 | "2 of Clubs" and "Ace of Spades" |
| Decks.FullDeck | src/Deck.java:10-14 | the new deck holds 52 cards |
| Decks.FullDeckAt | src/Deck.java:10-14 | position 13·suit + rank holds that card (suit-major order) |
| Decks.FullDeckComplete | src/Deck.java:10-14 | every card occurs in the new deck exactly once |
| Decks.FullDeckCoversRanksAndSuits | src/Deck.java:10-14 | every rank and suit combination is present |
| Decks.DistinctCount | src/Deck.java:10-14 | a card of a duplicate-free deck occurs once in its multiset |
| Decks.Deck.constructor | src/Deck.java:7-15 | the cards are the full suit-major deck |
| Decks.Swap | src/Deck.java:17-19 | a shuffle exchange keeps the length |
| Decks.ShuffleSteps | src/Deck.java:17-19 | every prefix of the Fisher–Yates pass keeps the length |
| Decks.Shuffled | src/Deck.java:17-19 | the shuffled deck has the deck's length |
| Decks.SwapPermutes | src/Deck.java:17-19 | an exchange keeps the multiset and the absence of duplicates |
| Decks.ShuffleStepsPermute | src/Deck.java:17-19 | each step of the pass keeps the multiset and the absence of duplicates |
| Decks.ShuffledPermutes | src/Deck.java:17-19 | shuffling adds, drops and duplicates no card |
| Decks.Deck.Shuffle | src/Deck.java:17-19 | the cards become the Fisher–Yates order of the draws, the same multiset of the same size |
| Decks.Deck.DealCard | src/Deck.java:21-26 | an empty deck deals null and stays empty; otherwise the first card leaves and the rest remain in order |
| Decks.Deck.CardsRemaining | src/Deck.java:28-30 | the number of cards left |
| Decks.Deck.IsEmpty | src/Deck.java:32-34 | true iff no card remains |
| Decks.DealAll | src/Deck.java:21-34 | dealing until empty yields exactly the deck's cards in order |
| Decks.FreshDeckDealsFiftyTwo | src/Deck.java:7-26 | after a shuffle a new deck deals 52 distinct cards, the full deck as a multiset, then null |
| Players.Player.constructor | src/Player.java:10-15 | the name is kept, isComputer iff the name equals "Computer" ignoring case, empty hand, total 0 |
| Players.Player.AddCard | src/Player.java:25-27 | the card is appended to the hand, total unchanged |
| Players.Player.ClearHand | src/Player.java:29-31 | the hand becomes empty, total unchanged |
| Players.Player.AddToTotalScore | src/Player.java:37-39 | the total grows by the score, hand unchanged |
| Players.Player.CalculateSuitScores | src/Player.java:54-62 | four entries, entry s the summed score of the hand's cards of suit s |
| Players.SuitScoresPartition | src/Player.java:54-62 | the four suit scores add up to the hand's total card score |
| Players.SuitScoreBounds | src/Player.java:54-62 | a suit with n cards scores between 2n and 11n |
| Players.Player.GetBestSuit | src/Player.java:65-78 | the scan's answer is the model's best suit |
| Players.Player.GetMaxSuitScore | src/Player.java:81-92 | the scan's answer is the model's maximum suit score |
| Players.MaxSuitScore | src/Player.java:81-92 | the largest of the four suit scores; `BestSuitSpec` proves it is reached and never exceeded |
| Players.BestSuit | src/Player.java:65-78 | the first suit with the largest score; `BestSuitSpec` and `BestSuitUnique` characterise it |
| Players.BestSuitSpec | src/Player.java:65-92 | the best suit reaches the maximum, no suit beats it, and every lower suit scores strictly less |
| Players.BestSuitUnique | src/Player.java:65-78 | any suit with those three properties is the best suit |
| Players.EmptyHandScores | src/Player.java:54-92 | an empty hand scores 0 in every suit, with best suit 0 and maximum 0 |
| Players.BestSuitTieExample | src/Player.java:65-78 | Clubs 5, Diamonds 5, Hearts 2: the best suit is Clubs |
| Players.Player.SelectBonusSuit | src/Player.java:95-117 | a suit index; the computer's best suit, or the human's choice minus one |
| Players.ComputerAlwaysGetsBonus | src/Player.java:108-111 | naming the best suit of a hand earns that hand the bonus |
| Players.Player.CalculateRoundScore | src/Player.java:188-206 | the scan's answer is the model's round score |
| Players.RoundScore | src/Player.java:188-206 | the round rule; `RoundScoreSpec` states its value and its bound of 60 |
| Players.RoundScoreSpec | src/Player.java:188-206 | the maximum suit score, plus 5 exactly when the bonus suit is the best suit; at most 60 for five cards |
| Players.RoundScoreExample | src/Player.java:188-206 | Q♣ K♣ A♣ 2♦ 3♥ scores 36 with bonus Clubs and 31 with bonus Diamonds |
| Players.Player.SelectCardsToSwap | src/Player.java:120-157 | the computer's strategy for a computer, the parsed line for a human |
| Players.Player.ComputerSelectCards | src/Player.java:160-185 | the loop's positions are the model's computer choice |
| Players.Player.CountInSuit | src/Player.java:172-175 | the count of the hand's cards of the suit |
| Players.CountSuitStep | src/Player.java:172-175 | one more card raises the count by one exactly when it has the suit |
| Players.CountSuitBound | src/Player.java:172-175 | a suit count never exceeds the hand size |
| Players.OffSuitStep | src/Player.java:167-182 | one more card adds its position exactly when it is off the suit |
| Players.OffSuitPrefix | src/Player.java:167 | the off-suit positions of a prefix begin those of the whole hand |
| Players.OffSuitPositionsSpec | src/Player.java:167-182 | off-suit positions are in range and ascending, and hold exactly the positions off the suit |
| Players.ComputerSwapsSpec | src/Player.java:160-185 | at most four ascending off-best-suit positions; none with fewer than two best-suit cards; else the first four off-suit positions, all of them when fewer than four |
| Players.ComputerSwaps | src/Player.java:160-185 | the computer strategy; `ComputerSwapsSpec` states what it keeps and swaps |
| Players.Player.HumanSelectCards | src/Player.java:139-153 | the human branch's positions are the parsed line |
| Players.HumanSwaps | src/Player.java:139-153 | the human swap line as positions; `HumanSwapsSpec` states its cases |
| Players.HumanSwapsSpec | src/Player.java:139-153 | a trimmed "0" or an empty line swaps nothing; otherwise the first four distinct positions named by the whitespace-split words; at most four |
| Players.Player.FilterPositions | src/Player.java:142-152 | the token loop's positions are the model's filter |
| Players.SwapFilterStep | src/Player.java:142-152 | one more token adds its position minus one when it parses to 1..5, is new and fewer than four are held |
| Players.SwapFilterFull | src/Player.java:147 | once four positions are held, later tokens change nothing |
| Players.SwapFilterIsFirstFourDistinct | src/Player.java:142-152 | the filter is the first four distinct positions the tokens name |
| Players.DedupSpec | src/Player.java:145 | the deduplicated positions are distinct and hold the same values |
| Players.TakeDedupSnoc | src/Player.java:145-147 | one more position is added exactly when it is new and fewer than four are held |
| Players.TakeDedupSpec | src/Player.java:145-147 | at most four distinct named values; all of them when fewer than four |
| Players.NamedPositionsSpec | src/Player.java:143-145 | every named position is at most 4 and comes from a token parsing to it plus one; every token parsing to 1..5 names one |
| Players.SwapFilterSpec | src/Player.java:142-152 | at most four distinct positions in 0..4, each from a token; every valid token kept when fewer than four |
| Players.SwapFilter | src/Player.java:142-152 | the token filter; `SwapFilterSpec` and `SwapFilterIsFirstFourDistinct` state that it keeps the first four distinct valid positions |
| SwapApplication.RemoveAt | src/HighSuit.java:151 | remove(pos) keeps the cards before pos and shifts the later ones down by one |
| SwapApplication.SwapStepSpec | src/HighSuit.java:150-153 | a valid position with a non-empty deck removes that card and appends the deck's top card; otherwise nothing changes |
| SwapApplication.SwapStep | src/HighSuit.java:150-153 | one pass of the swap loop; `SwapStepSpec` states both branches |
| SwapApplication.StepSizes | src/HighSuit.java:150-153 | one step keeps the hand size and deals at most the top card |
| SwapApplication.StepConserves | src/HighSuit.java:150-153 | one step creates no card |
| SwapApplication.ApplySwapsHandSize | src/HighSuit.java:149-154 | the swap loop keeps the hand size |
| SwapApplication.ApplySwapsDeckSuffix | src/HighSuit.java:149-154 | the deck left is a suffix of the deck, shorter by at most one card per position |
| SwapApplication.ApplySwapsConserves | src/HighSuit.java:149-154 | hand and deck together hold no card they did not hold before |
| SwapApplication.ApplySwapsFrame | src/HighSuit.java:149-154 | hand size kept, deck suffix, at most one card per position, no card created |
| SwapApplication.ApplySwapsEmptyDeck | src/HighSuit.java:150 | with an empty deck the hand is unchanged |
| SwapApplication.SwapRemovesOriginalCard | src/HighSuit.java:147-151 | in descending order each position still names the originally chosen card when it is removed |
| SwapApplication.ApplyFrom | src/HighSuit.java:149-154 | from any point of the loop, the rest yields the kept cards followed by the dealt cards |
| SwapApplication.SwapsRemoveChosenCards | src/HighSuit.java:145-154 | for distinct descending positions the hand becomes the unchosen cards in order followed by the first dealt cards |
| SwapApplication.ApplySwaps | src/HighSuit.java:149-154 | the swap loop; `SwapsRemoveChosenCards` and `ApplySwapsFrame` state the hand and deck it leaves |
| SwapApplication.KeepRemoveOne | src/HighSuit.java:151 | removing one more chosen card removes it at its place among the kept cards |
| SwapApplication.DescendingIsReverseOrderSort | src/HighSuit.java:147 | the descending sort is the stable sort on negated positions |
| SwapApplication.DescendingSpec | src/HighSuit.java:147 | distinct positions sort into strictly descending order with the same multiset |
| SwapApplication.Descending | src/HighSuit.java:147 | the reverse-order sort; `DescendingSpec` and `DescendingIsReverseOrderSort` state its result |
| SwapApplication.DescendingOfDescending | src/HighSuit.java:147 | sorting descending positions again changes nothing |
| HighSuitGame.PlayerName | src/HighSuit.java:83-86 | a blank name becomes "Player i", so no name is empty |
| HighSuitGame.Game.constructor | src/HighSuit.java:12-16 | the leaderboard is loaded from the saved lines; empty replay, no players, no rounds |
| HighSuitGame.Game.SetupGame | src/HighSuit.java:73-97 | one new player per name line, trimmed or defaulted, computer iff named "Computer"; the round count is stored |
| HighSuitGame.NewShuffledDeck | src/HighSuit.java:117-118 | a fresh deck in the draws' Fisher–Yates order |
| HighSuitGame.DealtHand | src/HighSuit.java:123-128 | each dealt hand has five cards |
| HighSuitGame.DealtHands | src/HighSuit.java:123-128 | player k is dealt cards 5k..5k+4 of the shuffled deck |
| HighSuitGame.Game.DealFiveTo | src/HighSuit.java:124-127 | the player's hand becomes the deck's first five cards, which leave the deck |
| HighSuitGame.Game.DealHands | src/HighSuit.java:123-128 | player k holds cards 5k..5k+4; the deck loses 5 cards per player; totals unchanged |
| HighSuitGame.Game.ChooseAndSwap | src/HighSuit.java:135-154 | bonus and positions are the player's choices, positions sorted descending; hand and deck are the swap loop's result |
| HighSuitGame.Game.ApplySwapPositions | src/HighSuit.java:149-154 | hand and deck become the model's swap loop result |
| HighSuitGame.HighestSuit | src/HighSuit.java:164-172 | the first suit with the maximum score and that score |
| HighSuitGame.Game.PlayTurn | src/HighSuit.java:131-192 | hand, deck, total and replay follow one modelled turn; "bonus applied" iff the final best suit is the bonus suit |
| HighSuitGame.SwapChoiceSpec | src/HighSuit.java:142 | a turn's chosen positions are distinct, at most four and within the hand |
| HighSuitGame.TurnSpec | src/HighSuit.java:135-189 | the record names the player, the dealt hand and the bonus; positions strictly descending; the final hand is the kept cards plus the dealt cards; the score is the final hand's round score |
| HighSuitGame.TakeTurn | src/HighSuit.java:135-189 | one player's turn; `TurnSpec` states the record and deck it yields |
| HighSuitGame.FullTableSwapsAll | src/HighSuit.java:145-154 | with four cards left in the deck every chosen card is exchanged |
| HighSuitGame.TurnTakesAtMostFour | src/HighSuit.java:145-154 | a turn draws at most four cards from the deck |
| HighSuitGame.TurnDeckStep | src/HighSuit.java:131-154 | each turn leaves at most four cards fewer than the deck it started on |
| HighSuitGame.TurnsDeckBound | src/HighSuit.java:131-154 | after i turns the deck has lost at most 4i cards |
| HighSuitGame.PlayedRoundNeverRunsOut | src/HighSuit.java:115-154 | with at most five players on the full deck, every turn starts with at least four cards, so every chosen card is exchanged for the next card of the deck |
| HighSuitGame.ComputerBonusWithoutSwaps | src/HighSuit.java:138-162 | a computer that keeps its hand receives the bonus |
| HighSuitGame.ComputerCanMissBonus | src/HighSuit.java:138-162 | a computer turn whose swaps move the best suit from Clubs to Diamonds, scoring 31 without the bonus |
| HighSuitGame.MissBonusDealtHand | src/Player.java:160-185 | in that example the dealt hand's best suit is Clubs and the computer swaps positions 2, 3 and 4 |
| HighSuitGame.MissBonusDealtScores | src/Player.java:54-62 | the example hand's suit scores are 5, 4, 2 and 2 |
| HighSuitGame.MissBonusDealtClubs | src/Player.java:167-182 | the example hand holds two Clubs, and positions 2, 3 and 4 are off Clubs |
| HighSuitGame.MissBonusSwaps | src/HighSuit.java:147-154 | the example's positions run 4, 3, 2 and bring in three Diamonds |
| HighSuitGame.MissBonusFinalHand | src/Player.java:188-206 | the example's final hand has best suit Diamonds and scores 31 with bonus Clubs |
| HighSuitGame.Game.PlayAllTurns | src/HighSuit.java:131-192 | players' hands and totals, the deck and the round replay all follow the turns in player order |
| HighSuitGame.Turns | src/HighSuit.java:131-192 | i turns yield i records |
| HighSuitGame.StepsAreTurns | src/HighSuit.java:131-192 | the records built turn by turn are the modelled turns |
| HighSuitGame.TurnsPrefix | src/HighSuit.java:182-189 | later turns do not change an earlier player's record |
| HighSuitGame.TurnsKeepRecord | src/HighSuit.java:182-189 | record k stays as it was made through every later turn |
| HighSuitGame.TurnsChain | src/HighSuit.java:182-189 | the records of j turns begin with those of the first j - 1 |
| HighSuitGame.TurnsRecordsStep | src/HighSuit.java:182-189 | turn j - 1 appends its own record after the earlier ones |
| HighSuitGame.Game.PlayOnDeck | src/HighSuit.java:120-194 | on a given shuffled deck: the round's records are appended to the replay; hands, totals and deck follow them |
| HighSuitGame.Game.PlayRound | src/HighSuit.java:115-195 | a fresh shuffled deck, then the round played on it: replay, hands, totals and deck |
| HighSuitGame.PlayedRoundSpec | src/HighSuit.java:115-194 | record k names player k, holds cards 5k..5k+4 as dealt, the bonus, descending positions, a five-card final hand and its round score |
| HighSuitGame.PlayedRound | src/HighSuit.java:115-194 | a whole round on a shuffled deck; `PlayedRoundSpec` states every record |
| HighSuitGame.PlayedRounds | src/HighSuit.java:99-113 | n rounds yield n replay rounds |
| HighSuitGame.Game.PlayGame | src/HighSuit.java:99-113 | the replay gains the rounds in order; each total grows by that player's round scores |
| HighSuitGame.RoundsScoreAppend | src/HighSuit.java:161-162 | one more round adds that round's score to each total |
| HighSuitGame.RoundsScoreNonNegative | src/HighSuit.java:161-162 | totals of non-negative round scores are non-negative |
| HighSuitGame.Standings | src/HighSuit.java:203 | one (name, total) entry per player, in player order |
| HighSuitGame.FinalEntries | src/HighSuit.java:33-35 | one leaderboard entry per player, in player order: entry k is NewEntry(name, total, numRounds) of player k |
| HighSuitGame.InsertAllAppend | src/HighSuit.java:33-35 | inserting one more entry applies addScore to the table so far |
| HighSuitGame.Game.RecordScores | src/HighSuit.java:33-35 | the leaderboard receives every player's entry in player order |
| HighSuitGame.MaxTotal | src/HighSuit.java:216-217 | the highest total bounds every total and is reached |
| HighSuitGame.RankedFacts | src/HighSuit.java:203-204 | the ranking is a permutation, led by the highest total |
| HighSuitGame.Game.DisplayFinalResults | src/HighSuit.java:197-221 | the verdict of the ranking's first two entries |
| HighSuitGame.FinalOutcomeSpec | src/HighSuit.java:203-221 | a tie iff two players share the highest total; a winner is a player whose total beats every other |
| HighSuitGame.FinalOutcome | src/HighSuit.java:203-221 | the verdict; `FinalOutcomeSpec` states when it is a tie and who wins |
| HighSuitGame.TieSharesTop | src/HighSuit.java:217-218 | a tie means two players hold the highest total |
| HighSuitGame.WinnerBeatsOthers | src/HighSuit.java:216-220 | the winner is a player with the highest total, strictly above every other player |
| HighSuitGame.OthersBelowWinner | src/HighSuit.java:216-220 | every player other than the ranking's leader is below the leader |
| HighSuitGame.FinalOutcomeSmallTables | src/HighSuit.java:216-221 | one player always wins; two players tie exactly on equal totals, else the higher wins |
| HighSuitGame.Game.ResetReplay | src/HighSuit.java:52-54 | a new empty replay; players, leaderboard and round count unchanged |
| Scores.JavaDivExamples | src/ScoreTable.java:14 | 999/3 = 333, 100/3 = 33, and truncation toward zero for negative operands |
| Scores.JavaDivNonNegative | src/ScoreTable.java:14 | for non-negative totals the average is the floor of total/rounds |
| Scores.JavaDiv | src/ScoreTable.java:14 | Java `int` division; `JavaDivNonNegative` and `JavaDivExamples` state its truncation |
| Scores.NewEntry | src/ScoreTable.java:14-15 | the entry of a name, a total and a round count with the truncated average; `AddScore` inserts it |
| Scores.CompareTo | src/ScoreTable.java:91-94 | compareTo answers -1, 0 or 1 |
| Scores.CompareToIsDescendingAverage | src/ScoreTable.java:91-94 | compareTo orders by descending average and is antisymmetric |
| Scores.ScoreTable.constructor | src/ScoreTable.java:8-11 | the table is the loaded lines, sorted by descending average |
| Scores.ScoreTable.AddScore | src/ScoreTable.java:13-24 | the table becomes the insertion of the new entry, and the saved lines encode it |
| Scores.InsertedSpec | src/ScoreTable.java:13-24 | after addScore: descending averages, min(n+1, 5) entries, each from the old table or the new entry |
| Scores.Inserted | src/ScoreTable.java:15-21 | insert, sort, keep five; `InsertedSpec` states the resulting table |
| Scores.TieWithFifthIsDropped | src/ScoreTable.java:15-21 | in a full table, an entry not above the fifth average changes nothing (a tie keeps the older entry) |
| Scores.HigherThanFifthIsKept | src/ScoreTable.java:15-21 | an entry above the fifth average enters the table |
| Scores.InsertedPosition | src/ScoreTable.java:16 | an entry above position k is placed within the first k+1 |
| Scores.AppendLower | src/ScoreTable.java:15-21 | in a short table an entry below all others goes last |
| Scores.TopFiveOfDescending | src/ScoreTable.java:13-24 | adding entries of strictly falling averages to an empty table keeps the first five |
| Scores.InsertAllFrom | src/ScoreTable.java:13-24 | from any point, adding the remaining falling entries yields the top five |
| Scores.EncodeAll | src/ScoreTable.java:66-75 | one saved line per entry, line i the entry i |
| Scores.NumbersFields | src/ScoreTable.java:50 | three comma-free numbers joined by commas split back into those three |
| Scores.EncodeLineSplit | src/ScoreTable.java:69-70 | a saved line splits into the name's comma fields and the three numbers |
| Scores.FieldsSingle | src/ScoreTable.java:50 | a text splits into one field iff it has no separator |
| Scores.DecodeEncodeLine | src/ScoreTable.java:50-57 | a saved line reads back as its entry iff the name has no comma; a name with a comma makes the line skipped |
| Scores.EncodeLine | src/ScoreTable.java:69-70 | a saved line; `EncodeLineSplit` and `DecodeEncodeLine` state how it reads back |
| Scores.DecodeLine | src/ScoreTable.java:50-57 | a loaded line; `DecodeEncodeLine` and `CommaInNameIsLost` state when it yields the entry |
| Scores.CommaInNameIsLost | src/ScoreTable.java:51 | the entry of "Smith, J" is skipped on reload |
| Scores.DecodeAllParsedLine | src/ScoreTable.java:49-58 | one more parsed line adds its entry to the loaded ones |
| Scores.DecodeAllEncodeAll | src/ScoreTable.java:46-75 | the saved lines of comma-free entries read back as those entries |
| Scores.DecodeAll | src/ScoreTable.java:49-59 | the read loop; `DecodeAllParsedLine` and `DecodeAllEncodeAll` state what it collects |
| Scores.SaveThenLoad | src/ScoreTable.java:46-75 | saving a sorted table and loading it gives back the same table |
| Scores.LoadScores | src/ScoreTable.java:46-64 | the loaded, sorted table; `SaveThenLoad` proves it restores a saved table |
| Replay.RoundReplay.constructor | src/GameReplay.java:63-65 | a round replay starts empty |
| Replay.RoundReplay.AddPlayerData | src/GameReplay.java:67-69 | the record is appended |
| Replay.GameReplay.constructor | src/GameReplay.java:6-8 | a game replay starts with no rounds |
| Replay.GameReplay.AddRound | src/GameReplay.java:10-12 | the round's records are appended; earlier rounds unchanged |
| StableSort.Insert | src/ScoreTable.java:16 | insertion adds one element |
| StableSort.SortBy | src/ScoreTable.java:16 | sorting keeps the length |
| StableSort.InsertPermutes | src/ScoreTable.java:16 | insertion adds exactly the element |
| StableSort.InsertSorted | src/ScoreTable.java:16 | insertion keeps key order |
| StableSort.InsertLast | src/ScoreTable.java:16 | an element with the largest key goes last |
| StableSort.InsertKeepsKeyOrder | src/ScoreTable.java:16 | insertion goes after the elements of equal key |
| StableSort.SortBySorted | src/ScoreTable.java:16 | the result is in key order |
| StableSort.SortByPermutes | src/ScoreTable.java:16 | the result is a permutation of the input |
| StableSort.SortByStable | src/ScoreTable.java:16 | elements of equal key keep their relative order |
| StableSort.SortBySortedIsIdentity | src/ScoreTable.java:60 | sorting a sorted list changes nothing |
| StableSort.SortByAppended | src/ScoreTable.java:15-16 | sorting a sorted list plus one element inserts that element |
| JavaText.DigitValue | src/Player.java:144 | Character.digit answers -1 or a digit value 0..9 |
| JavaText.DigitFrom | src/Player.java:144 | a digit past ASCII is the zero of one of its script's runs plus its value |
| JavaText.DigitFromHit | src/Player.java:144 | a character in the first run that holds it has its offset from that run's zero as value |
| JavaText.FullwidthDigit | src/Player.java:144 | the fullwidth digits U+FF10..U+FF19 have values 0..9 |
| JavaText.ParseInt | src/Player.java:144 | parseInt succeeds only with a value within Java's int range |
| JavaText.ParseIntSpec | src/Player.java:144 | parseInt yields v iff the text is digits of value v, '+' and digits of value v, or '-' and digits of value -v, and v fits an int |
| JavaText.ParseIntExamples | src/Player.java:144 | "007" reads 7, "+5" reads 5, "-0" reads 0 |
| JavaText.ParseIntRefusals | src/Player.java:144 | "", "+", "-", " 3", "3 ", "1a" and "--1" are refused |
| JavaText.ParseIntFullwidth | src/Player.java:144 | the fullwidth "３" reads 3 |
| JavaText.ParseIntArabicIndic | src/Player.java:144 | the Arabic-Indic "٣٠" reads 30 |
| JavaText.NatToStringValue | src/ScoreTable.java:69-70 | the digits printed for n have value n |
| JavaText.IntToStringRoundTrip | src/ScoreTable.java:52-57 | parseInt reads back the printed int |
| JavaText.IntToString | src/ScoreTable.java:69-70 | the printed int is never empty; `IntToStringRoundTrip` proves parseInt reads it back |
| JavaText.IntToStringChars | src/ScoreTable.java:69-70 | a printed int has no comma (no character other than digits and '-') |
| JavaText.FieldsNoSep | src/ScoreTable.java:50 | a text without the separator is one field |
| JavaText.FieldsAppend | src/ScoreTable.java:50 | the fields around a separator are the fields of each side |
| JavaText.Split | src/ScoreTable.java:50 | split(","); `FieldsNoSep`, `FieldsAppend` and `FieldsSingle` state its fields |
| JavaText.TrimStartSpec | src/Player.java:139 | trimming the front drops exactly the leading characters up to ' ' |
| JavaText.TrimEndSpec | src/Player.java:139 | trimming the end drops exactly the trailing characters up to ' ' |
| JavaText.TrimSpec | src/Player.java:139 | trim yields the middle slice that neither starts nor ends with a character up to ' ' |
| JavaText.Trim | src/Player.java:139 | trim; `TrimSpec` states the slice it keeps |
| JavaText.WordLengthSpec | src/Player.java:141 | a word runs to the first whitespace |
| JavaText.WordsSpec | src/Player.java:141 | splitting at whitespace runs yields non-empty words without whitespace |
| JavaText.Words | src/Player.java:141 | split("\\s+") on trimmed text; `WordsSpec`, `WordsKeepNonSpaces` and `WordsOfJoin` state its words |
| JavaText.WordsKeepNonSpaces | src/Player.java:141 | the words joined together are the text with its whitespace removed |
| JavaText.NonSpacesAppend | src/Player.java:141 | removing whitespace from a concatenation removes it from each part |
| JavaText.NonSpacesOfWord | src/Player.java:141 | a text without whitespace loses nothing |
| JavaText.WordLengthOfWord | src/Player.java:141 | a word followed by whitespace or the end of the text is read whole |
| JavaText.WordsAfterSpaces | src/Player.java:141 | leading whitespace yields no word |
| JavaText.WordsOfJoin | src/Player.java:141 | a word, a run of whitespace and a rest split into that word and then the rest's words: the words are the maximal runs, in order |
| JavaText.WordsOfWord | src/Player.java:141 | a single word splits into itself |
| JavaText.EqualsIgnoreCase | src/Player.java:14 | equalsIgnoreCase, folding ASCII letters; `EqualsIgnoreCaseExamples` shows the "Computer" test |
| JavaText.EqualsIgnoreCaseExamples | src/Player.java:14 | "computer", "COMPUTER" and "cOmPuTeR" match "Computer"; "Computers" and "C0mputer" do not |
| Hands.Hand.constructor | src/Hand.java:7-14 | the hand holds the five cards, stably sorted by rank |
| Hands.Hand.SortCards | src/Hand.java:13 | Arrays.sort leaves the stable rank sort of the array |
| Hands.NewHandSorted | src/Hand.java:7-14 | a new hand is in non-decreasing compareTo order and holds the dealt cards |
| Hands.Hand.Search | src/Hand.java:18-26 | the loop stops at the first equal card, or past the end when none is equal |
| Hands.Hand.InHand | src/Hand.java:16-28 | inHand as written always answers false |
| Hands.Hand.InHandCorrected | src/Hand.java:16-28 | the search's answer: true iff the hand holds the card |
| Hands.InHandMissesHeldCard | src/Hand.java:16-28 | on every hand, inHand misses the hand's first card, which the corrected search finds |
| Hands.Hand.ToText | src/Hand.java:30-36 | the text is each card's long form followed by a space |
| Hands.NamesHaveNoSpace | src/Card.java:7-9 | rank and suit names hold no space |
| Hands.HandTextAppend | src/Hand.java:30-36 | one more card appends its long form and a space |
| Hands.HandTextFields | src/Hand.java:30-36 | a hand's text splits into three words per card and a final empty word |
| Hands.HandTextRoundTrip | src/Hand.java:30-36 | a hand's text reads back as the hand |
| RankedCards.Biggest | src/RankedCard.java:12-20 | the tracked position is -1 exactly before any card |
| RankedCards.BiggestIsFirstMaximum | src/RankedCard.java:12-20 | the scan finds the maximum rank, at the first position holding it |
| RankedCards.MoveBiggestLast | src/RankedCard.java:27-29 | after the swap the last card has the top rank, the two cards exchange places, the rest stay, same five cards |
| RankedCards.RankCards | src/RankedCard.java:4-30 | the array is the dealt cards with the biggest moved to the last slot |
| Sorting.SwapAdjacent | src/BubleSort.java:18-20 | the exchange keeps the length |
| Sorting.SwapAdjacentPermutes | src/BubleSort.java:18-20 | the exchange keeps the multiset |
| Sorting.InversionsSwap | src/BubleSort.java:15-20 | exchanging an out-of-order neighbour pair removes exactly one inversion |
| Sorting.SortedIffNoInversions | src/BubleSort.java:10-26 | an array is sorted iff it has no inversions |
| Sorting.PassFrom | src/BubleSort.java:13-24 | a partial pass keeps the length and reports a last swap position not beyond lastPos |
| Sorting.BubblePass | src/BubleSort.java:11-24 | a pass reports a last swap position strictly before lastPos, so the outer loop ends |
| Sorting.Pass | src/BubleSort.java:11-24 | the inner loop leaves the pass's result in the array; comparisons equal lastPos, swaps as counted |
| Sorting.PassFromState | src/BubleSort.java:13-24 | after a pass the largest element up to lastPos sits at lastPos, the stretch after the last swap is sorted and no smaller than what precedes it, and the positions past lastPos are untouched |
| Sorting.PassSwap | src/BubleSort.java:15-22 | exchanging an out-of-order pair moves the last swap position to it and keeps those facts one position further |
| Sorting.PassKeep | src/BubleSort.java:15 | an in-order pair keeps those facts one position further |
| Sorting.PassFromPermutes | src/BubleSort.java:13-24 | a pass permutes the array |
| Sorting.PassFromInversions | src/BubleSort.java:13-24 | each swap in a pass removes one inversion |
| Sorting.PassFromSorted | src/BubleSort.java:13-24 | a pass over a sorted array swaps nothing and reports 0 |
| Sorting.PassKeepsOrder | src/BubleSort.java:10-25 | a pass keeps the outer invariant: everything past lastPos is sorted and no smaller than anything before |
| Sorting.SortFromSorts | src/BubleSort.java:10-26 | the remaining passes leave the array sorted |
| Sorting.SortFromPermutes | src/BubleSort.java:10-26 | the remaining passes permute the array |
| Sorting.SortFromInversions | src/BubleSort.java:10-26 | the swaps of the remaining passes count the remaining inversions |
| Sorting.BubbleSortedSpec | src/BubleSort.java:5-26 | the sort is sorted and a permutation, with as many swaps as inversions; a sorted input takes one pass of n-1 comparisons and no swap |
| Sorting.BubleSort | src/BubleSort.java:5-29 | the array ends sorted and a permutation of the input; swaps equal the input's inversions; a sorted array is unchanged |

## Left out

- Console I/O is not modelled: `Scanner`, every prompt and printout,
  `displayHand`, `Scores.display`, `displayReplay`, `displayWelcome` and
  the printed round summary. The values read from the console become
  parameters: the player names, the rounds, each `TurnInput`, and a
  human's bonus choice and swap line.
- `getValidInput` (the re-prompt loops in `Player` and `HighSuit`) is
  left out; the values it returns become preconditions on the parameters.
- The `start` loop's questions (view the table, view the replay, play
  again) are console I/O. The steps the loop runs are modelled:
  `SetupGame`, `PlayGame`, `DisplayFinalResults`, `RecordScores` and
  `ResetReplay`.
- `java.util.Random` is not modelled. The shuffle's draws and the
  exercises' "random" cards (`Card()`, `new Random()`) are parameters.
- Files are modelled as sequences of lines. Reading and writing them is
  left out, and so is a failed save (`IOException`).
- Java `null` and object identity are left out: a deal from an empty
  deck returns `None`.
- The `CardTest` demonstration `main` only prints, so it is left out.
- Scores.ScoreTable.constructor: requires every four-field saved line to
  parse. Java throws `NumberFormatException` there, which `loadScores`
  does not catch. `DecodeLine` models that error, and the table then has
  no value.
- Scores.ScoreTable.AddScore: requires `rounds != 0`, since Java's
  division by zero throws. The game always passes 1 to 3.
- Players.Player.SelectBonusSuit: requires a human's choice to be in
  1..4, which `getValidInput` guarantees.
- HighSuitGame.Game.SetupGame: requires 1 or 2 name lines and 1 to 3
  rounds, which `getValidInput` guarantees.
- HighSuitGame.Game.PlayRound: requires at most 10 players, so that 52
  cards suffice for the deal; `setupGame` allows at most two.
- Hands.Hand.ToText: requires the five cards that every `Hand` has.
- JavaText.Words: models `split("\\s+")` only on trimmed text.
  `selectCardsToSwap` calls it only there, so the leading empty field
  Java yields for text that starts with whitespace never arises.
- JavaText.EqualsIgnoreCase: folds only ASCII letters, where Java also
  folds other scripts. No other character folds onto a letter of
  "Computer", the one name the game compares, so the test agrees with
  Java's.
- JavaText.DigitValue: follows the decimal digits of the Basic
  Multilingual Plane in current Unicode data. An older JDK knows fewer
  scripts. A digit outside that plane is two UTF-16 units to Java and is
  no digit, as in the model.
- Sorting.BubleSort: the `printf` of the two counters becomes two
  out-parameters. The counters are unbounded integers.
  Java's `int` counters overflow only beyond about 65,536 elements.
- `Collections.sort`, `Arrays.sort` and `List.sort` are modelled by the
  stable insertion sort `StableSort.SortBy`, with the comparator as an
  integer key. The model covers their stated results, not their
  algorithms.

## Findings

| source | as written | input that shows it | evidently intended | confidence | as-written member | corrected member |
|---|---|---|---|---|---|---|
| src/Hand.java:27 | `inHand` runs its search and then returns the constant `false` | any hand, searched for its own first card | return the search's `found` flag | not executed | Hands.Hand.InHand, Hands.InHandMissesHeldCard | Hands.Hand.InHandCorrected |
