/**
 * The game engine: a round deals five cards to each player from a freshly
 * shuffled deck, then each player in turn names a bonus suit, swaps cards
 * (highest position first) and scores; the round's records go to the
 * replay. At the end of a game every player's total goes to the leaderboard
 * and the winner, or a tie, is declared.
 */
module HighSuitGame {
  import opened Options
  import opened Cards
  import opened JavaText
  import opened StableSort
  import opened Decks
  import opened Players
  import opened Scores
  import opened Replay
  import opened SwapApplication
  import opened Seqs

  const HandSize: nat := 5

  /** Rounds deal from one 52-card deck, so at most ten players can hold full hands. */
  const MaxPlayers: nat := 10

  /** What identifies a player for a turn: the name and whether the computer plays. */
  datatype Seat = Seat(name: string, isComputer: bool)

  /** A player's answers for one turn: the bonus menu choice 1..4 and the typed swap line (both unused by the computer). */
  datatype TurnInput = TurnInput(bonusChoice: int, swapLine: string)

  /** A turn's record and the deck left after it. */
  datatype Turn = Turn(record: PlayerRoundData, deck: seq<Card>)

  /** A round's records, in player order, and the deck left after it. */
  datatype Round = Round(records: seq<PlayerRoundData>, deck: seq<Card>)

  datatype Standing = Standing(name: string, total: int)

  datatype Outcome = Tie | Wins(name: string, total: int)

  // ---------------------------------------------------------------------
  // One round, as functions
  // ---------------------------------------------------------------------

  function SeatOf(p: Player): Seat
  {
    Seat(p.name, p.isComputer)
  }

  function Seats(players: seq<Player>): (r: seq<Seat>)
    ensures |r| == |players|
    ensures forall k :: 0 <= k < |players| ==> r[k] == SeatOf(players[k])
  {
    seq(|players|, k requires 0 <= k < |players| => SeatOf(players[k]))
  }

  /** The answers a round needs: draws for the shuffle, one input per seat, menu choices in range. */
  predicate RoundInputs(seats: seq<Seat>, draws: seq<nat>, inputs: seq<TurnInput>)
  {
    ShuffleDraws(52, draws) && |inputs| == |seats| &&
    forall k :: 0 <= k < |seats| && !seats[k].isComputer ==> 1 <= inputs[k].bonusChoice <= 4
  }

  /** The bonus suit named before swapping: the computer's best suit, or the menu choice made 0-based. */
  function BonusChoice(seat: Seat, hand: seq<Card>, input: TurnInput): int
  {
    if seat.isComputer then BestSuit(hand) else input.bonusChoice - 1
  }

  function SwapChoice(seat: Seat, hand: seq<Card>, input: TurnInput): seq<int>
  {
    if seat.isComputer then ComputerSwaps(hand) else HumanSwaps(input.swapLine)
  }

  /** One player's turn: bonus, swaps applied highest position first, score on the final hand. */
  function TakeTurn(seat: Seat, hand: seq<Card>, deck: seq<Card>, input: TurnInput): Turn
  {
    var bonus := BonusChoice(seat, hand, input);
    var positions := Descending(SwapChoice(seat, hand, input));
    var after := ApplySwaps(hand, deck, positions);
    Turn(PlayerRoundData(seat.name, hand, bonus, positions, after.hand, RoundScore(after.hand, bonus)), after.deck)
  }

  /** Player k's hand: the block [5k, 5k+5) of the shuffled deck. */
  function DealtHand(deck: seq<Card>, k: nat): (hand: seq<Card>)
    requires 5 * (k + 1) <= |deck|
    ensures |hand| == HandSize
  {
    deck[5 * k..5 * (k + 1)]
  }

  /** The first i turns, each drawing from the deck the previous one left. */
  function Turns(seats: seq<Seat>, hands: seq<seq<Card>>, deck: seq<Card>, inputs: seq<TurnInput>, i: nat): (r: Round)
    requires |hands| == |seats| == |inputs| && i <= |seats|
    ensures |r.records| == i
    decreases i, 0
  {
    if i == 0 then Round([], deck)
    else
      var t := TurnAt(seats, hands, deck, inputs, i - 1);
      Round(Turns(seats, hands, deck, inputs, i - 1).records + [t.record], t.deck)
  }

  /** Turn i of the round: seat i's turn on its hand and on the deck the first i turns left. */
  function TurnAt(seats: seq<Seat>, hands: seq<seq<Card>>, deck: seq<Card>, inputs: seq<TurnInput>, i: nat): Turn
    requires |hands| == |seats| == |inputs| && i < |seats|
    decreases i, 1
  {
    TakeTurn(seats[i], hands[i], Turns(seats, hands, deck, inputs, i).deck, inputs[i])
  }

  function DealtHands(shuffled: seq<Card>, n: nat): (hands: seq<seq<Card>>)
    requires 5 * n <= |shuffled|
    ensures |hands| == n
    ensures forall k :: 0 <= k < n ==> hands[k] == DealtHand(shuffled, k)
  {
    seq(n, k requires 0 <= k < n => DealtHand(shuffled, k))
  }

  /** A whole round on the shuffled deck: deal every hand, then every turn. */
  function PlayedRound(seats: seq<Seat>, shuffled: seq<Card>, inputs: seq<TurnInput>): Round
    requires |inputs| == |seats| && 5 * |seats| <= |shuffled|
  {
    var n := |seats|;
    Turns(seats, DealtHands(shuffled, n), shuffled[5 * n..], inputs, n)
  }

  /** The records of the first n rounds, each on a fresh deck shuffled by its own draws. */
  function PlayedRounds(seats: seq<Seat>, draws: seq<seq<nat>>, inputs: seq<seq<TurnInput>>, n: nat): (rounds: seq<seq<PlayerRoundData>>)
    requires n <= |draws| == |inputs| && |seats| <= MaxPlayers
    requires forall r :: 0 <= r < |draws| ==> RoundInputs(seats, draws[r], inputs[r])
    ensures |rounds| == n
  {
    if n == 0 then []
    else
      assert RoundInputs(seats, draws[n - 1], inputs[n - 1]);
      PlayedRounds(seats, draws, inputs, n - 1) + [PlayedRound(seats, Shuffled(FullDeck(), draws[n - 1]), inputs[n - 1]).records]
  }

  /** Player k's points summed over the rounds (a round without a k-th record adds nothing). */
  function RoundsScore(rounds: seq<seq<PlayerRoundData>>, k: nat): int
  {
    if |rounds| == 0 then 0
    else
      var last := rounds[|rounds| - 1];
      RoundsScore(rounds[..|rounds| - 1], k) + (if k < |last| then last[k].roundScore else 0)
  }

  // ---------------------------------------------------------------------
  // End of game, as functions
  // ---------------------------------------------------------------------

  /** The player's name (a blank one becomes "Player <number>"). */
  function PlayerName(line: string, number: int): (name: string)
    ensures |name| > 0
  {
    var name := Trim(line);
    if name == "" then "Player " + IntToString(number) else name
  }

  function Standings(players: seq<Player>): (r: seq<Standing>)
    reads players
    ensures |r| == |players|
    ensures forall k :: 0 <= k < |players| ==> r[k] == Standing(players[k].name, players[k].totalScore)
  {
    if |players| == 0 then []
    else Standings(players[..|players| - 1]) + [Standing(players[|players| - 1].name, players[|players| - 1].totalScore)]
  }

  /** The leaderboard entries of a finished game, in player order. */
  function FinalEntries(standings: seq<Standing>, rounds: int): (es: seq<ScoreEntry>)
    requires rounds != 0
    ensures |es| == |standings|
    ensures forall k :: 0 <= k < |standings| ==>
      es[k] == NewEntry(standings[k].name, standings[k].total, rounds)
  {
    if |standings| == 0 then []
    else
      var last := standings[|standings| - 1];
      FinalEntries(standings[..|standings| - 1], rounds) + [NewEntry(last.name, last.total, rounds)]
  }

  function HigherTotalFirst(s: Standing): int
  {
    -s.total
  }

  /** Sort by total, highest first (stable); a tie when the first two totals are equal. */
  function FinalOutcome(standings: seq<Standing>): Outcome
    requires |standings| >= 1
  {
    var ranked := SortBy(standings, HigherTotalFirst);
    if |ranked| > 1 && ranked[0].total == ranked[1].total then Tie
    else Wins(ranked[0].name, ranked[0].total)
  }

  function MaxTotal(standings: seq<Standing>): (m: int)
    requires |standings| >= 1
    ensures forall i :: 0 <= i < |standings| ==> standings[i].total <= m
    ensures exists i :: 0 <= i < |standings| && standings[i].total == m
  {
    if |standings| == 1 then standings[0].total
    else
      var m := MaxTotal(standings[..|standings| - 1]);
      var last := standings[|standings| - 1].total;
      assert forall i :: 0 <= i < |standings| - 1 ==> standings[i] == standings[..|standings| - 1][i];
      if last > m then last else m
  }

  // ---------------------------------------------------------------------
  // The game object
  // ---------------------------------------------------------------------

  class Game {
    var players: seq<Player>
    var deck: Deck
    var numRounds: int
    var scores: ScoreTable
    var gameReplay: GameReplay

    ghost predicate DistinctPlayers()
      reads this
    {
      forall i, j :: 0 <= i < j < |players| ==> players[i] != players[j]
    }

    /** Loads the leaderboard and starts an empty replay. */
    constructor (savedScores: seq<string>)
      requires LoadScores(savedScores).Some?
      ensures scores.scores == LoadScores(savedScores).value
      ensures gameReplay.rounds == [] && players == [] && numRounds == 0
      ensures fresh(scores) && fresh(gameReplay)
    {
      players := [];
      deck := new Deck();
      numRounds := 0;
      scores := new ScoreTable(savedScores);
      gameReplay := new GameReplay();
    }

    /** New players from the typed names (a blank name becomes "Player i") and the round count. */
    method SetupGame(nameLines: seq<string>, rounds: int)
      requires 1 <= |nameLines| <= 2 && 1 <= rounds <= 3
      modifies this
      ensures numRounds == rounds && |players| == |nameLines| && DistinctPlayers()
      ensures forall k :: 0 <= k < |players| ==>
        fresh(players[k]) && players[k].name == PlayerName(nameLines[k], k + 1) &&
        players[k].isComputer == EqualsIgnoreCase(players[k].name, "Computer") &&
        players[k].hand == [] && players[k].totalScore == 0
      ensures scores == old(scores) && gameReplay == old(gameReplay) && deck == old(deck)
    {
      players := [];
      var i := 1;
      while i <= |nameLines|
        invariant 1 <= i <= |nameLines| + 1 && |players| == i - 1 && DistinctPlayers()
        invariant forall k :: 0 <= k < |players| ==>
          fresh(players[k]) && players[k].name == PlayerName(nameLines[k], k + 1) &&
          players[k].isComputer == EqualsIgnoreCase(players[k].name, "Computer") &&
          players[k].hand == [] && players[k].totalScore == 0
        invariant scores == old(scores) && gameReplay == old(gameReplay) && deck == old(deck)
      {
        var name := Trim(nameLines[i - 1]);
        if name == "" {
          name := "Player " + IntToString(i);
        }
        var player := new Player(name);
        players := players + [player];
        i := i + 1;
      }
      numRounds := rounds;
    }

    /** Five cards to each player in turn, from the front of the deck. */
    method DealHands()
      requires DistinctPlayers() && 5 * |players| <= |deck.cards|
      modifies players, deck
      ensures forall k :: 0 <= k < |players| ==>
        players[k].hand == DealtHand(old(deck.cards), k) && players[k].totalScore == old(players[k].totalScore)
      ensures deck.cards == old(deck.cards)[5 * |players|..]
    {
      for i := 0 to |players|
        invariant deck.cards == old(deck.cards)[5 * i..]
        invariant forall k :: 0 <= k < i ==> players[k].hand == DealtHand(old(deck.cards), k)
        invariant forall k :: 0 <= k < |players| ==> players[k].totalScore == old(players[k].totalScore)
      {
        assert 5 * i + 5 <= |old(deck.cards)|;
        DealFiveTo(players[i]);
        assert old(deck.cards)[5 * i..][..5] == DealtHand(old(deck.cards), i);
        assert old(deck.cards)[5 * i..][5..] == old(deck.cards)[5 * (i + 1)..];
      }
    }

    /** The inner loop of the deal: empty the hand, then five cards from the front of the deck. */
    method DealFiveTo(player: Player)
      requires |deck.cards| >= HandSize
      modifies player, deck
      ensures player.hand == old(deck.cards)[..HandSize] && deck.cards == old(deck.cards)[HandSize..]
      ensures player.totalScore == old(player.totalScore)
    {
      player.ClearHand();
      for j := 0 to HandSize
        invariant player.hand == old(deck.cards)[..j] && deck.cards == old(deck.cards)[j..]
        invariant player.totalScore == old(player.totalScore)
      {
        var card := deck.DealCard();
        player.AddCard(card.value);
        assert old(deck.cards)[..j + 1] == old(deck.cards)[..j] + [old(deck.cards)[j]];
      }
    }

    /**
     * One player's turn: the bonus suit is named on the dealt hand, the swap
     * positions are sorted highest first and applied, the final hand is
     * scored and the total updated, and the turn is recorded. Also returns
     * the best suit and its score as announced, and whether the bonus applied.
     */
    method PlayTurn(player: Player, input: TurnInput, roundReplay: RoundReplay)
      returns (maxSuit: int, maxScore: int, bonusApplied: bool)
      requires !player.isComputer ==> 1 <= input.bonusChoice <= 4
      modifies player, deck, roundReplay
      ensures var t := TakeTurn(SeatOf(player), old(player.hand), old(deck.cards), input);
        && player.hand == t.record.finalHand && deck.cards == t.deck
        && player.totalScore == old(player.totalScore) + t.record.roundScore
        && roundReplay.playerData == old(roundReplay.playerData) + [t.record]
        && maxSuit == BestSuit(player.hand) && maxScore == MaxSuitScore(player.hand)
        && (bonusApplied <==> maxSuit == t.record.bonusSuit)
    {
      var initialHand := player.hand;
      ghost var seat, initialDeck := SeatOf(player), deck.cards;
      var bonusSuit, swappedPositions := ChooseAndSwap(player, input);
      ghost var after := ApplySwaps(initialHand, initialDeck, swappedPositions);
      var roundScore := player.CalculateRoundScore(bonusSuit);
      player.AddToTotalScore(roundScore);

      var suitScores := player.CalculateSuitScores();
      maxSuit, maxScore := HighestSuit(suitScores);
      BestSuitUnique(player.hand, maxSuit);
      BestSuitSpec(player.hand);
      bonusApplied := maxSuit == bonusSuit;

      ghost var record := PlayerRoundData(player.name, initialHand, bonusSuit, swappedPositions, player.hand, roundScore);
      TakeTurnUnfold(seat, initialHand, initialDeck, input, bonusSuit, swappedPositions);
      assert TakeTurn(seat, initialHand, initialDeck, input) == Turn(record, after.deck);
      roundReplay.AddPlayerData(PlayerRoundData(player.name, initialHand, bonusSuit, swappedPositions, player.hand, roundScore));
    }

    /** The first half of a turn: the bonus suit is fixed on the dealt hand, then the chosen cards are swapped. */
    method ChooseAndSwap(player: Player, input: TurnInput) returns (bonusSuit: int, positions: seq<int>)
      requires !player.isComputer ==> 1 <= input.bonusChoice <= 4
      modifies player, deck
      ensures bonusSuit == BonusChoice(SeatOf(player), old(player.hand), input)
      ensures positions == Descending(SwapChoice(SeatOf(player), old(player.hand), input))
      ensures var after := ApplySwaps(old(player.hand), old(deck.cards), positions);
        player.hand == after.hand && deck.cards == after.deck
      ensures player.totalScore == old(player.totalScore)
    {
      ghost var seat := SeatOf(player);
      bonusSuit := player.SelectBonusSuit(input.bonusChoice);
      assert bonusSuit == BonusChoice(seat, player.hand, input);
      positions := player.SelectCardsToSwap(input.swapLine);
      assert positions == SwapChoice(seat, player.hand, input);
      if positions != [] {
        positions := Descending(positions);
        ApplySwapPositions(player, positions);
      } else {
        assert Descending(positions) == [];
        assert ApplySwaps(player.hand, deck.cards, []) == Swapped(player.hand, deck.cards);
      }
    }

    /** The swap loop: each position inside the hand, while the deck lasts, is removed and refilled. */
    method ApplySwapPositions(player: Player, positions: seq<int>)
      modifies player, deck
      ensures Swapped(player.hand, deck.cards) == ApplySwaps(old(player.hand), old(deck.cards), positions)
      ensures player.totalScore == old(player.totalScore)
    {
      var j := 0;
      while j < |positions|
        invariant 0 <= j <= |positions|
        invariant ApplySwaps(player.hand, deck.cards, positions[j..]) == ApplySwaps(old(player.hand), old(deck.cards), positions)
        invariant player.totalScore == old(player.totalScore)
      {
        var pos := positions[j];
        assert positions[j..][0] == pos && positions[j..][1..] == positions[j + 1..];
        if 0 <= pos < |player.hand| && !deck.IsEmpty() {
          player.hand := RemoveAt(player.hand, pos);
          var card := deck.DealCard();
          player.AddCard(card.value);
        }
        j := j + 1;
      }
      assert positions[j..] == [];
    }

    /** A round: new shuffled deck, deal, every player's turn, and one replay round appended. */
    method PlayRound(draws: seq<nat>, inputs: seq<TurnInput>)
      requires RoundInputs(Seats(players), draws, inputs)
      requires |players| <= MaxPlayers && DistinctPlayers()
      modifies this, players, gameReplay
      ensures players == old(players) && gameReplay == old(gameReplay) && scores == old(scores) && numRounds == old(numRounds)
      ensures fresh(deck)
      ensures var round := PlayedRound(Seats(players), Shuffled(FullDeck(), draws), inputs);
        && gameReplay.rounds == old(gameReplay.rounds) + [round.records]
        && deck.cards == round.deck
        && forall k :: 0 <= k < |players| ==>
             players[k].hand == round.records[k].finalHand &&
             players[k].totalScore == old(players[k].totalScore) + round.records[k].roundScore
    {
      ghost var seats := Seats(players);
      deck := NewShuffledDeck(draws);
      PlayOnDeck(inputs, seats, deck.cards);
    }

    /** Deal from the new deck, play every turn, and append the round to the replay. */
    method PlayOnDeck(inputs: seq<TurnInput>, ghost seats: seq<Seat>, ghost shuffled: seq<Card>)
      requires |players| <= MaxPlayers && DistinctPlayers() && seats == Seats(players)
      requires |inputs| == |seats| && forall k :: 0 <= k < |seats| && !seats[k].isComputer ==> 1 <= inputs[k].bonusChoice <= 4
      requires deck.cards == shuffled && |shuffled| == 52
      modifies players, deck, gameReplay
      ensures var round := PlayedRound(seats, shuffled, inputs);
        && gameReplay.rounds == old(gameReplay.rounds) + [round.records]
        && deck.cards == round.deck
        && forall k :: 0 <= k < |players| ==>
             players[k].hand == round.records[k].finalHand &&
             players[k].totalScore == old(players[k].totalScore) + round.records[k].roundScore
    {
      var roundReplay := new RoundReplay();
      DealHands();
      ghost var hands := DealtHands(shuffled, |players|);
      PlayAllTurns(inputs, roundReplay, seats, hands);
      gameReplay.AddRound(roundReplay);
    }

    /** Every player's turn in seat order, each drawing from what the previous turns left in the deck. */
    method PlayAllTurns(inputs: seq<TurnInput>, roundReplay: RoundReplay, ghost seats: seq<Seat>, ghost hands: seq<seq<Card>>)
      requires |inputs| == |players| == |hands| == |seats| && DistinctPlayers()
      requires forall k :: 0 <= k < |players| ==> seats[k] == SeatOf(players[k])
      requires forall k :: 0 <= k < |players| && !seats[k].isComputer ==> 1 <= inputs[k].bonusChoice <= 4
      requires forall k :: 0 <= k < |players| ==> players[k].hand == hands[k]
      requires roundReplay.playerData == []
      modifies players, deck, roundReplay
      ensures var round := Turns(seats, hands, old(deck.cards), inputs, |players|);
        && roundReplay.playerData == round.records
        && deck.cards == round.deck
        && forall k :: 0 <= k < |players| ==>
             players[k].hand == round.records[k].finalHand &&
             players[k].totalScore == old(players[k].totalScore) + round.records[k].roundScore
    {
      ghost var recs: seq<PlayerRoundData> := [];
      ghost var decks := [deck.cards];
      for i := 0 to |players|
        invariant |recs| == i && |decks| == i + 1 && decks[0] == old(deck.cards)
        invariant Steps(seats, hands, inputs, recs, decks)
        invariant roundReplay.playerData == recs && deck.cards == decks[i]
        invariant forall k :: 0 <= k < i ==>
          players[k].hand == recs[k].finalHand &&
          players[k].totalScore == old(players[k].totalScore) + recs[k].roundScore
        invariant forall k :: i <= k < |players| ==> players[k].hand == hands[k] && players[k].totalScore == old(players[k].totalScore)
      {
        label Before:
        var _, _, _ := PlayTurn(players[i], inputs[i], roundReplay);
        assert forall k :: 0 <= k < |players| && k != i ==>
          players[k].hand == old@Before(players[k].hand) && players[k].totalScore == old@Before(players[k].totalScore);
        ghost var t := Turn(roundReplay.playerData[i], deck.cards);
        StepsExtend(seats, hands, inputs, recs, decks, t.record, t.deck);
        recs := recs + [t.record];
        decks := decks + [t.deck];
      }
      StepsAreTurns(seats, hands, old(deck.cards), inputs, recs, decks);
    }

    /** numRounds rounds, each with its own shuffle draws and inputs. */
    method PlayGame(draws: seq<seq<nat>>, inputs: seq<seq<TurnInput>>)
      requires |draws| == |inputs| == numRounds
      requires forall r :: 0 <= r < numRounds ==> RoundInputs(Seats(players), draws[r], inputs[r])
      requires |players| <= MaxPlayers && DistinctPlayers()
      modifies this, players, gameReplay
      ensures players == old(players) && gameReplay == old(gameReplay) && scores == old(scores) && numRounds == old(numRounds)
      ensures var rounds := PlayedRounds(Seats(players), draws, inputs, numRounds);
        && gameReplay.rounds == old(gameReplay.rounds) + rounds
        && forall k :: 0 <= k < |players| ==> players[k].totalScore == old(players[k].totalScore) + RoundsScore(rounds, k)
    {
      ghost var seats := Seats(players);
      ghost var played: seq<seq<PlayerRoundData>> := [];
      for round := 0 to numRounds
        invariant players == old(players) && gameReplay == old(gameReplay) && scores == old(scores) && numRounds == old(numRounds)
        invariant DistinctPlayers() && Seats(players) == seats
        invariant played == PlayedRounds(seats, draws, inputs, round)
        invariant gameReplay.rounds == old(gameReplay.rounds) + played
        invariant forall k :: 0 <= k < |players| ==> players[k].totalScore == old(players[k].totalScore) + RoundsScore(played, k)
      {
        PlayRound(draws[round], inputs[round]);
        ghost var records := PlayedRound(seats, Shuffled(FullDeck(), draws[round]), inputs[round]).records;
        RoundsScoreAppend(played, records);
        played := played + [records];
      }
    }

    /** One leaderboard insertion per player, in player order, with the game's round count. */
    method RecordScores()
      requires numRounds != 0
      modifies scores
      ensures scores.scores == InsertAll(old(scores.scores), FinalEntries(Standings(players), numRounds))
    {
      var standings := Standings(players);
      ghost var entries: seq<ScoreEntry> := [];
      for i := 0 to |standings|
        invariant entries == FinalEntries(standings[..i], numRounds)
        invariant scores.scores == InsertAll(old(scores.scores), entries)
      {
        var player := standings[i];
        ghost var entry := NewEntry(player.name, player.total, numRounds);
        FinalEntriesStep(standings, i, numRounds);
        var _ := scores.AddScore(player.name, player.total, numRounds);
        InsertAllAppend(old(scores.scores), entries, entry);
        entries := entries + [entry];
      }
      assert standings[..|standings|] == standings;
    }

    /** The final ranking's verdict: a tie or the winner with their total. */
    method DisplayFinalResults() returns (outcome: Outcome)
      requires |players| >= 1
      ensures outcome == FinalOutcome(Standings(players))
    {
      var sortedPlayers := SortBy(Standings(players), HigherTotalFirst);
      var winner := sortedPlayers[0];
      if |sortedPlayers| > 1 && sortedPlayers[0].total == sortedPlayers[1].total {
        outcome := Tie;
      } else {
        outcome := Wins(winner.name, winner.total);
      }
    }

    /** Playing again starts from an empty replay. */
    method ResetReplay()
      modifies this
      ensures fresh(gameReplay) && gameReplay.rounds == []
      ensures players == old(players) && scores == old(scores) && numRounds == old(numRounds)
    {
      gameReplay := new GameReplay();
    }
  }

  /** A new deck of the 52 cards, shuffled by the draws. */
  method NewShuffledDeck(draws: seq<nat>) returns (deck: Deck)
    requires ShuffleDraws(52, draws)
    ensures fresh(deck) && deck.cards == Shuffled(FullDeck(), draws)
  {
    deck := new Deck();
    deck.Shuffle(draws);
  }

  /**
   * The announcement's scan over the four suit scores: starting from suit 0
   * with score 0, move to a suit only when its score is strictly higher.
   * The result is the first suit of greatest score.
   */
  method HighestSuit(suitScores: seq<int>) returns (maxSuit: int, maxScore: int)
    requires |suitScores| == 4 && forall k :: 0 <= k < 4 ==> suitScores[k] >= 0
    ensures 0 <= maxSuit < 4 && suitScores[maxSuit] == maxScore
    ensures forall k :: 0 <= k < 4 ==> suitScores[k] <= maxScore
    ensures forall k :: 0 <= k < maxSuit ==> suitScores[k] < maxScore
  {
    maxScore := 0;
    maxSuit := 0;
    for i := 0 to 4
      invariant 0 <= maxSuit < 4 && (maxSuit == 0 || maxSuit < i)
      invariant forall k :: 0 <= k < i ==> suitScores[k] <= maxScore
      invariant i > 0 ==> suitScores[maxSuit] == maxScore
      invariant i == 0 ==> maxScore == 0
      invariant forall k :: 0 <= k < maxSuit ==> suitScores[k] < maxScore
    {
      if suitScores[i] > maxScore {
        maxScore := suitScores[i];
        maxSuit := i;
      }
    }
  }

  /** Each recorded turn is TakeTurn on its seat's hand and the deck the turn before it left. */
  ghost predicate Steps(seats: seq<Seat>, hands: seq<seq<Card>>, inputs: seq<TurnInput>,
                        recs: seq<PlayerRoundData>, decks: seq<seq<Card>>)
  {
    |decks| == |recs| + 1 && |recs| <= |seats| && |recs| <= |hands| && |recs| <= |inputs| &&
    forall k {:trigger TakeTurn(seats[k], hands[k], decks[k], inputs[k])} :: 0 <= k < |recs| ==>
      TakeTurn(seats[k], hands[k], decks[k], inputs[k]) == Turn(recs[k], decks[k + 1])
  }

  lemma StepsExtend(seats: seq<Seat>, hands: seq<seq<Card>>, inputs: seq<TurnInput>,
                    recs: seq<PlayerRoundData>, decks: seq<seq<Card>>, r: PlayerRoundData, d: seq<Card>)
    requires Steps(seats, hands, inputs, recs, decks)
    requires |recs| < |seats| && |recs| < |hands| && |recs| < |inputs|
    requires TakeTurn(seats[|recs|], hands[|recs|], decks[|recs|], inputs[|recs|]) == Turn(r, d)
    ensures Steps(seats, hands, inputs, recs + [r], decks + [d])
  {
    var recs', decks' := recs + [r], decks + [d];
    forall k | 0 <= k < |recs'|
      ensures TakeTurn(seats[k], hands[k], decks'[k], inputs[k]) == Turn(recs'[k], decks'[k + 1])
    {
      if k < |recs| {
        assert decks'[k] == decks[k] && decks'[k + 1] == decks[k + 1] && recs'[k] == recs[k];
      } else {
        assert decks'[k] == decks[k] && decks'[k + 1] == d && recs'[k] == r;
      }
    }
  }

  lemma StepsPrefix(seats: seq<Seat>, hands: seq<seq<Card>>, inputs: seq<TurnInput>,
                    recs: seq<PlayerRoundData>, decks: seq<seq<Card>>)
    requires Steps(seats, hands, inputs, recs, decks) && |recs| > 0
    ensures Steps(seats, hands, inputs, recs[..|recs| - 1], decks[..|recs|])
  {
    var n := |recs|;
    var recs0, decks0 := recs[..n - 1], decks[..n];
    forall k | 0 <= k < n - 1
      ensures TakeTurn(seats[k], hands[k], decks0[k], inputs[k]) == Turn(recs0[k], decks0[k + 1])
    {
      assert decks0[k] == decks[k] && decks0[k + 1] == decks[k + 1] && recs0[k] == recs[k];
    }
  }

  lemma {:induction false} StepsAreTurns(seats: seq<Seat>, hands: seq<seq<Card>>, deck: seq<Card>, inputs: seq<TurnInput>,
                                         recs: seq<PlayerRoundData>, decks: seq<seq<Card>>)
    requires |hands| == |seats| == |inputs| && |recs| <= |seats|
    requires Steps(seats, hands, inputs, recs, decks) && decks[0] == deck
    ensures Turns(seats, hands, deck, inputs, |recs|) == Round(recs, decks[|recs|])
  {
    var n := |recs|;
    if n > 0 {
      var recs0, decks0 := recs[..n - 1], decks[..n];
      StepsPrefix(seats, hands, inputs, recs, decks);
      StepsAreTurns(seats, hands, deck, inputs, recs0, decks0);
      assert decks0[n - 1] == decks[n - 1];
      TurnsStep(seats, hands, deck, inputs, n - 1);
      assert TakeTurn(seats[n - 1], hands[n - 1], decks[n - 1], inputs[n - 1]) == Turn(recs[n - 1], decks[n]);
      LastSplit(recs);
    }
  }

  /** One more turn extends the round by that turn's record, on the deck the earlier turns left. */
  lemma TurnsStep(seats: seq<Seat>, hands: seq<seq<Card>>, deck: seq<Card>, inputs: seq<TurnInput>, i: nat)
    requires |hands| == |seats| == |inputs| && i < |seats|
    ensures var prev := Turns(seats, hands, deck, inputs, i);
      var t := TakeTurn(seats[i], hands[i], prev.deck, inputs[i]);
      Turns(seats, hands, deck, inputs, i + 1) == Round(prev.records + [t.record], t.deck)
  {
  }

  /** TakeTurn in terms of the bonus and the sorted positions it computes. */
  lemma TakeTurnUnfold(seat: Seat, hand: seq<Card>, deck: seq<Card>, input: TurnInput, bonus: int, positions: seq<int>)
    requires bonus == BonusChoice(seat, hand, input) && positions == Descending(SwapChoice(seat, hand, input))
    ensures var after := ApplySwaps(hand, deck, positions);
      TakeTurn(seat, hand, deck, input)
        == Turn(PlayerRoundData(seat.name, hand, bonus, positions, after.hand, RoundScore(after.hand, bonus)), after.deck)
  {
  }

  // ---------------------------------------------------------------------
  // Properties of a turn and a round
  // ---------------------------------------------------------------------

  /** The positions a turn chooses are distinct and inside a five-card hand. */
  lemma SwapChoiceSpec(seat: Seat, hand: seq<Card>, input: TurnInput)
    requires |hand| == HandSize
    ensures var c := SwapChoice(seat, hand, input);
      DistinctInts(c) && |c| <= 4 && forall i :: 0 <= i < |c| ==> 0 <= c[i] < HandSize
  {
    if seat.isComputer {
      ComputerSwapsSpec(hand);
    } else {
      HumanSwapsSpec(input.swapLine);
      SwapFilterSpec(Words(Trim(input.swapLine)));
    }
  }

  /**
   * A turn on a five-card hand: the record holds the dealt hand, the swap
   * positions are strictly descending and are the chosen ones, the final
   * hand is the unchosen dealt cards in order followed by the drawn cards in
   * draw order (one per chosen position while the deck lasts), the deck
   * loses exactly the drawn cards, and the score is the round score of the
   * final hand with the bonus named on the dealt hand.
   */
  lemma TurnSpec(seat: Seat, hand: seq<Card>, deck: seq<Card>, input: TurnInput)
    requires |hand| == HandSize
    ensures var t := TakeTurn(seat, hand, deck, input);
      var p := t.record.swappedCards;
      var k := Min(|p|, |deck|);
      && t.record.playerName == seat.name && t.record.initialHand == hand
      && t.record.bonusSuit == BonusChoice(seat, hand, input)
      && StrictlyDescending(p) && multiset(p) == multiset(SwapChoice(seat, hand, input))
      && t.record.finalHand == Keep(hand, p[..k]) + deck[..k]
      && t.deck == deck[k..]
      && |t.record.finalHand| == HandSize
      && t.record.roundScore == RoundScore(t.record.finalHand, t.record.bonusSuit)
  {
    var c := SwapChoice(seat, hand, input);
    SwapChoiceSpec(seat, hand, input);
    DescendingSpec(c);
    var p := Descending(c);
    forall i | 0 <= i < |p| ensures 0 <= p[i] < |hand| {
      assert p[i] in multiset(c);
    }
    SwapsRemoveChosenCards(hand, deck, p);
    ApplySwapsFrame(hand, deck, p);
  }

  /** With at least four cards left in the deck, every chosen card is exchanged. */
  lemma FullTableSwapsAll(seat: Seat, hand: seq<Card>, deck: seq<Card>, input: TurnInput)
    requires |hand| == HandSize && |deck| >= 4
    ensures var t := TakeTurn(seat, hand, deck, input);
      var p := t.record.swappedCards;
      |p| <= 4 && t.record.finalHand == Keep(hand, p) + deck[..|p|]
  {
    TurnSpec(seat, hand, deck, input);
    SwapChoiceSpec(seat, hand, input);
    var p := TakeTurn(seat, hand, deck, input).record.swappedCards;
    DescendingSpec(SwapChoice(seat, hand, input));
    assert |p| == |SwapChoice(seat, hand, input)|;
    assert p[..|p|] == p;
  }

  /** The first i turns take at most four cards each from the deck. */
  lemma TurnsDeckBound(seats: seq<Seat>, hands: seq<seq<Card>>, deck: seq<Card>, inputs: seq<TurnInput>, i: nat)
    requires |hands| == |seats| == |inputs| && i <= |seats|
    requires forall k :: 0 <= k < |hands| ==> |hands[k]| == HandSize
    ensures |Turns(seats, hands, deck, inputs, i).deck| + 4 * i >= |deck|
  {
    var sizes := seq(i + 1, j requires 0 <= j <= i => |Turns(seats, hands, deck, inputs, j).deck|);
    forall j | 0 < j < |sizes|
      ensures sizes[j] + 4 >= sizes[j - 1]
    {
      TurnDeckStep(seats, hands, deck, inputs, j);
    }
    ShrinksByAtMost(sizes, 4, i);
    assert sizes[i] == |Turns(seats, hands, deck, inputs, i).deck|;
    assert sizes[0] == |deck|;
  }

  /** Turn j - 1 takes at most four cards from the deck the earlier turns left. */
  lemma TurnDeckStep(seats: seq<Seat>, hands: seq<seq<Card>>, deck: seq<Card>, inputs: seq<TurnInput>, j: nat)
    requires |hands| == |seats| == |inputs| && 0 < j <= |seats|
    requires forall k :: 0 <= k < |hands| ==> |hands[k]| == HandSize
    ensures |Turns(seats, hands, deck, inputs, j).deck| + 4 >= |Turns(seats, hands, deck, inputs, j - 1).deck|
  {
    var before := Turns(seats, hands, deck, inputs, j - 1).deck;
    TurnsStep(seats, hands, deck, inputs, j - 1);
    TurnTakesAtMostFour(seats[j - 1], hands[j - 1], before, inputs[j - 1]);
  }

  /** A turn draws at most four cards. */
  lemma TurnTakesAtMostFour(seat: Seat, hand: seq<Card>, deck: seq<Card>, input: TurnInput)
    requires |hand| == HandSize
    ensures |TakeTurn(seat, hand, deck, input).deck| + 4 >= |deck|
  {
    TurnSpec(seat, hand, deck, input);
    SwapChoiceSpec(seat, hand, input);
    var p := TakeTurn(seat, hand, deck, input).record.swappedCards;
    assert |p| == |multiset(p)| == |SwapChoice(seat, hand, input)|;
  }

  /**
   * With at most five players (setupGame allows two) every turn of a round
   * on the full deck starts with at least four cards left, so every chosen
   * card is exchanged for the next card of the deck.
   */
  lemma PlayedRoundNeverRunsOut(seats: seq<Seat>, shuffled: seq<Card>, inputs: seq<TurnInput>, k: nat)
    requires |inputs| == |seats| <= 5 && |shuffled| == 52 && k < |seats|
    ensures var n := |seats|;
      var before := Turns(seats, DealtHands(shuffled, n), shuffled[5 * n..], inputs, k).deck;
      var r := PlayedRound(seats, shuffled, inputs).records[k];
      && |before| >= 4
      && |r.swappedCards| <= 4
      && r.finalHand == Keep(r.initialHand, r.swappedCards) + before[..|r.swappedCards|]
  {
    var n := |seats|;
    var hands := DealtHands(shuffled, n);
    var rest := shuffled[5 * n..];
    TurnsDeckBound(seats, hands, rest, inputs, k);
    TurnsPrefix(seats, hands, rest, inputs, k, n);
    var before := Turns(seats, hands, rest, inputs, k).deck;
    assert TurnAt(seats, hands, rest, inputs, k) == TakeTurn(seats[k], hands[k], before, inputs[k]);
    TurnSpec(seats[k], hands[k], before, inputs[k]);
    FullTableSwapsAll(seats[k], hands[k], before, inputs[k]);
  }

  /** Turn i's record is fixed once taken: later turns only append. */
  lemma {:induction false} TurnsPrefix(seats: seq<Seat>, hands: seq<seq<Card>>, deck: seq<Card>, inputs: seq<TurnInput>, k: nat, i: nat)
    requires |hands| == |seats| == |inputs| && k < i <= |seats|
    ensures Turns(seats, hands, deck, inputs, i).records[k] == TurnAt(seats, hands, deck, inputs, k).record
  {
    TurnsKeepRecord(seats, hands, deck, inputs, k, i);
    TurnsRecordsStep(seats, hands, deck, inputs, k + 1);
  }

  /** Record k, once made, stays as it is through every later turn. */
  lemma TurnsKeepRecord(seats: seq<Seat>, hands: seq<seq<Card>>, deck: seq<Card>, inputs: seq<TurnInput>, k: nat, i: nat)
    requires |hands| == |seats| == |inputs| && k < i <= |seats|
    ensures Turns(seats, hands, deck, inputs, i).records[k] == Turns(seats, hands, deck, inputs, k + 1).records[k]
  {
    var rs := seq(i + 1, j requires 0 <= j <= i => Turns(seats, hands, deck, inputs, j).records);
    TurnsChain(seats, hands, deck, inputs, i);
    ChainKeeps(rs, k, i);
    assert rs[i] == Turns(seats, hands, deck, inputs, i).records;
    assert rs[k + 1] == Turns(seats, hands, deck, inputs, k + 1).records;
  }

  /** The records of the first j turns start with those of the first j - 1. */
  lemma TurnsChain(seats: seq<Seat>, hands: seq<seq<Card>>, deck: seq<Card>, inputs: seq<TurnInput>, i: nat)
    requires |hands| == |seats| == |inputs| && i <= |seats|
    ensures forall j :: 0 < j <= i ==>
      Turns(seats, hands, deck, inputs, j).records[..j - 1] == Turns(seats, hands, deck, inputs, j - 1).records
  {
    forall j | 0 < j <= i
      ensures Turns(seats, hands, deck, inputs, j).records[..j - 1] == Turns(seats, hands, deck, inputs, j - 1).records
    {
      TurnsRecordsStep(seats, hands, deck, inputs, j);
    }
  }

  /** Turn i - 1 adds one record after those of the turns before it. */
  lemma TurnsRecordsStep(seats: seq<Seat>, hands: seq<seq<Card>>, deck: seq<Card>, inputs: seq<TurnInput>, i: nat)
    requires |hands| == |seats| == |inputs| && 0 < i <= |seats|
    ensures var prev := Turns(seats, hands, deck, inputs, i - 1).records;
      && Turns(seats, hands, deck, inputs, i).records[..i - 1] == prev
      && Turns(seats, hands, deck, inputs, i).records[i - 1] == TurnAt(seats, hands, deck, inputs, i - 1).record
  {
  }

  /**
   * A round's records: one per player in player order, with the player's
   * name, the dealt block [5k, 5k+5) as initial hand, strictly descending
   * swap positions and a five-card final hand scored by the round rule.
   */
  lemma PlayedRoundSpec(seats: seq<Seat>, shuffled: seq<Card>, inputs: seq<TurnInput>, k: nat)
    requires |inputs| == |seats| && 5 * |seats| <= |shuffled| && k < |seats|
    ensures var r := PlayedRound(seats, shuffled, inputs).records[k];
      && |PlayedRound(seats, shuffled, inputs).records| == |seats|
      && r.playerName == seats[k].name
      && r.initialHand == shuffled[5 * k..5 * (k + 1)]
      && r.bonusSuit == BonusChoice(seats[k], r.initialHand, inputs[k])
      && StrictlyDescending(r.swappedCards)
      && |r.finalHand| == HandSize
      && r.roundScore == RoundScore(r.finalHand, r.bonusSuit)
  {
    var n := |seats|;
    var hands := DealtHands(shuffled, n);
    var rest := shuffled[5 * n..];
    TurnsPrefix(seats, hands, rest, inputs, k, n);
    var before := Turns(seats, hands, rest, inputs, k).deck;
    assert TurnAt(seats, hands, rest, inputs, k) == TakeTurn(seats[k], hands[k], before, inputs[k]);
    TurnSpec(seats[k], hands[k], before, inputs[k]);
  }

  /**
   * The computer's bonus is named on the dealt hand, so it is certain only
   * when the computer swaps nothing (or the deck is empty).
   */
  lemma ComputerBonusWithoutSwaps(hand: seq<Card>, deck: seq<Card>, input: TurnInput)
    requires ComputerSwaps(hand) == [] || deck == []
    ensures var t := TakeTurn(Seat("Computer", true), hand, deck, input);
      t.record.finalHand == hand && t.record.roundScore == MaxSuitScore(hand) + 5
  {
    var p := Descending(ComputerSwaps(hand));
    if deck == [] {
      ApplySwapsEmptyDeck(hand, p);
    }
    ComputerAlwaysGetsBonus(hand);
  }

  /**
   * After swapping, the computer's best suit can change and the bonus is lost:
   * dealt 2C 3C 4D 2H 2S it names Clubs and swaps the last three cards; drawing
   * AD KD QD makes Diamonds best, and it scores 31 with no bonus.
   */
  lemma ComputerCanMissBonus()
    ensures var hand := [Card(0, 0), Card(1, 0), Card(2, 1), Card(0, 2), Card(0, 3)];
      var deck := [Card(12, 1), Card(11, 1), Card(10, 1)];
      var t := TakeTurn(Seat("Computer", true), hand, deck, TurnInput(0, ""));
      && t.record.bonusSuit == 0
      && t.record.finalHand == [Card(0, 0), Card(1, 0), Card(12, 1), Card(11, 1), Card(10, 1)]
      && BestSuit(t.record.finalHand) == 1
      && t.record.roundScore == 31
  {
    var hand := [Card(0, 0), Card(1, 0), Card(2, 1), Card(0, 2), Card(0, 3)];
    var deck := [Card(12, 1), Card(11, 1), Card(10, 1)];
    MissBonusDealtHand();
    MissBonusSwaps();
    MissBonusFinalHand();
    TakeTurnUnfold(Seat("Computer", true), hand, deck, TurnInput(0, ""), 0, [4, 3, 2]);
  }

  /** The dealt hand of the example: Clubs best with 5, two Clubs, the other three cards chosen. */
  lemma MissBonusDealtHand()
    ensures var hand := [Card(0, 0), Card(1, 0), Card(2, 1), Card(0, 2), Card(0, 3)];
      BestSuit(hand) == 0 && ComputerSwaps(hand) == [2, 3, 4]
  {
    MissBonusDealtScores();
    MissBonusDealtClubs();
  }

  /** The dealt hand's suit scores: Clubs 5, Diamonds 4, Hearts and Spades 2. */
  lemma MissBonusDealtScores()
    ensures var hand := [Card(0, 0), Card(1, 0), Card(2, 1), Card(0, 2), Card(0, 3)];
      SuitScore(hand, 0) == 5 && SuitScore(hand, 1) == 4 && SuitScore(hand, 2) == 2 && SuitScore(hand, 3) == 2
  {
    var hand := [Card(0, 0), Card(1, 0), Card(2, 1), Card(0, 2), Card(0, 3)];
    var h1, h2, h3, h4 := hand[..1], hand[..2], hand[..3], hand[..4];
    assert h1[..0] == [] && h2[..1] == h1 && h3[..2] == h2 && h4[..3] == h3 && hand[..4] == h4;
    forall s: Suit ensures SuitScore(h1, s) == if s == 0 then 2 else 0 { }
    forall s: Suit ensures SuitScore(h2, s) == if s == 0 then 5 else 0 { }
    forall s: Suit ensures SuitScore(h3, s) == if s == 0 then 5 else if s == 1 then 4 else 0 { }
    forall s: Suit ensures SuitScore(h4, s) == if s == 0 then 5 else if s == 1 then 4 else if s == 2 then 2 else 0 { }
  }

  /** The dealt hand holds two Clubs, at positions 0 and 1. */
  lemma MissBonusDealtClubs()
    ensures var hand := [Card(0, 0), Card(1, 0), Card(2, 1), Card(0, 2), Card(0, 3)];
      CountSuit(hand, 0) == 2 && OffSuitPositions(hand, 0) == [2, 3, 4]
  {
    var hand := [Card(0, 0), Card(1, 0), Card(2, 1), Card(0, 2), Card(0, 3)];
    var h1, h2, h3, h4 := hand[..1], hand[..2], hand[..3], hand[..4];
    assert h1[..0] == [] && h2[..1] == h1 && h3[..2] == h2 && h4[..3] == h3 && hand[..4] == h4;
    assert CountSuit(h1, 0) == 1 && CountSuit(h2, 0) == 2;
    assert OffSuitPositions(h1, 0) == [];
    assert OffSuitPositions(h2, 0) == OffSuitPositions(h1, 0);
    assert OffSuitPositions(h3, 0) == [2];
    assert OffSuitPositions(h4, 0) == [2, 3];
  }

  /** The example's swaps, highest position first, draw the three Diamonds in order. */
  lemma MissBonusSwaps()
    ensures Descending([2, 3, 4]) == [4, 3, 2]
    ensures var hand := [Card(0, 0), Card(1, 0), Card(2, 1), Card(0, 2), Card(0, 3)];
      var deck := [Card(12, 1), Card(11, 1), Card(10, 1)];
      ApplySwaps(hand, deck, [4, 3, 2]) == Swapped([Card(0, 0), Card(1, 0), Card(12, 1), Card(11, 1), Card(10, 1)], [])
  {
    assert [2, 3, 4][..2] == [2, 3] && [2, 3][..1] == [2];
    assert Descending([2]) == [2];
    assert Descending([2, 3]) == [3, 2];
    var hand := [Card(0, 0), Card(1, 0), Card(2, 1), Card(0, 2), Card(0, 3)];
    var deck := [Card(12, 1), Card(11, 1), Card(10, 1)];
    var p := [4, 3, 2];
    var s1 := SwapStep(hand, deck, 4);
    assert s1.hand == [Card(0, 0), Card(1, 0), Card(2, 1), Card(0, 2), Card(12, 1)];
    var s2 := SwapStep(s1.hand, s1.deck, 3);
    assert s2.hand == [Card(0, 0), Card(1, 0), Card(2, 1), Card(12, 1), Card(11, 1)];
    var s3 := SwapStep(s2.hand, s2.deck, 2);
    assert s3.hand == [Card(0, 0), Card(1, 0), Card(12, 1), Card(11, 1), Card(10, 1)];
    assert p[1..] == [3, 2] && p[1..][1..] == [2] && p[1..][1..][1..] == [];
  }

  /** The example's final hand: Diamonds best with 31, so a Clubs bonus does not apply. */
  lemma MissBonusFinalHand()
    ensures var f := [Card(0, 0), Card(1, 0), Card(12, 1), Card(11, 1), Card(10, 1)];
      BestSuit(f) == 1 && RoundScore(f, 0) == 31
  {
    var f := [Card(0, 0), Card(1, 0), Card(12, 1), Card(11, 1), Card(10, 1)];
    var f1, f2, f3, f4 := f[..1], f[..2], f[..3], f[..4];
    assert f1[..0] == [] && f2[..1] == f1 && f3[..2] == f2 && f4[..3] == f3 && f[..4] == f4;
    forall s: Suit ensures SuitScore(f1, s) == if s == 0 then 2 else 0 { }
    forall s: Suit ensures SuitScore(f2, s) == if s == 0 then 5 else 0 { }
    forall s: Suit ensures SuitScore(f3, s) == if s == 0 then 5 else if s == 1 then 11 else 0 { }
    forall s: Suit ensures SuitScore(f4, s) == if s == 0 then 5 else if s == 1 then 21 else 0 { }
    assert SuitScore(f, 0) == 5 && SuitScore(f, 1) == 31 && SuitScore(f, 2) == 0 && SuitScore(f, 3) == 0;
  }

  /** One more round adds, for each player, that round's points. */
  lemma RoundsScoreAppend(rounds: seq<seq<PlayerRoundData>>, last: seq<PlayerRoundData>)
    ensures forall k: nat :: RoundsScore(rounds + [last], k) == RoundsScore(rounds, k) + (if k < |last| then last[k].roundScore else 0)
  {
    assert (rounds + [last])[..|rounds|] == rounds;
  }

  /** Round scores that are never negative add up to a sum that is never negative. */
  lemma {:induction false} RoundsScoreNonNegative(rounds: seq<seq<PlayerRoundData>>, k: nat)
    requires forall r :: 0 <= r < |rounds| ==> k < |rounds[r]| ==> rounds[r][k].roundScore >= 0
    ensures RoundsScore(rounds, k) >= 0
  {
    if |rounds| > 0 {
      RoundsScoreNonNegative(rounds[..|rounds| - 1], k);
    }
  }

  // ---------------------------------------------------------------------
  // Properties of the end of the game
  // ---------------------------------------------------------------------

  /** One more standing adds that player's leaderboard entry. */
  lemma FinalEntriesStep(standings: seq<Standing>, i: nat, rounds: int)
    requires i < |standings| && rounds != 0
    ensures FinalEntries(standings[..i + 1], rounds)
         == FinalEntries(standings[..i], rounds) + [NewEntry(standings[i].name, standings[i].total, rounds)]
  {
    assert standings[..i + 1][..i] == standings[..i];
  }

  lemma {:induction false} InsertAllAppend(scores: seq<ScoreEntry>, es: seq<ScoreEntry>, e: ScoreEntry)
    ensures InsertAll(scores, es + [e]) == Inserted(InsertAll(scores, es), e)
    decreases |es|
  {
    if |es| == 0 {
      assert es + [e] == [e] && [e][1..] == [];
    } else {
      InsertAllAppend(Inserted(scores, es[0]), es[1..], e);
      assert (es + [e])[1..] == es[1..] + [e];
    }
  }

  /** The first of the ranking holds the highest total; everything after it is no higher than the second. */
  lemma RankedFacts(standings: seq<Standing>)
    requires |standings| >= 1
    ensures var ranked := SortBy(standings, HigherTotalFirst);
      && multiset(ranked) == multiset(standings)
      && ranked[0].total == MaxTotal(standings)
      && forall m :: 1 <= m < |ranked| ==> ranked[m].total <= ranked[1].total
  {
    var ranked := SortBy(standings, HigherTotalFirst);
    SortBySorted(standings, HigherTotalFirst);
    SortByPermutes(standings, HigherTotalFirst);
    var m := MaxTotal(standings);
    assert ranked[0] in multiset(standings);
    var a :| 0 <= a < |standings| && standings[a].total == m;
    assert standings[a] in multiset(ranked);
    var b :| 0 <= b < |ranked| && ranked[b] == standings[a];
    assert HigherTotalFirst(ranked[0]) <= HigherTotalFirst(ranked[b]);
    forall m | 1 <= m < |ranked| ensures ranked[m].total <= ranked[1].total {
      assert HigherTotalFirst(ranked[1]) <= HigherTotalFirst(ranked[m]);
    }
  }

  /**
   * The winner rule: a tie exactly when two players share the highest total;
   * otherwise the winner is a player whose total beats every other player's.
   */
  lemma FinalOutcomeSpec(standings: seq<Standing>)
    requires |standings| >= 1
    ensures FinalOutcome(standings) == Tie <==>
      exists i, j :: 0 <= i < j < |standings| && standings[i].total == MaxTotal(standings) && standings[j].total == MaxTotal(standings)
    ensures FinalOutcome(standings).Wins? ==>
      exists i :: 0 <= i < |standings| && standings[i] == Standing(FinalOutcome(standings).name, FinalOutcome(standings).total) &&
        forall j :: 0 <= j < |standings| && j != i ==> standings[j].total < standings[i].total
  {
    var top := MaxTotal(standings);
    if FinalOutcome(standings) == Tie {
      TieSharesTop(standings);
    } else {
      var i := WinnerBeatsOthers(standings);
      forall i', j' | 0 <= i' < j' < |standings|
        ensures !(standings[i'].total == top && standings[j'].total == top)
      {
        if i' == i {
          assert standings[j'].total < standings[i].total;
        } else {
          assert standings[i'].total < standings[i].total;
        }
      }
    }
  }

  /** A tie means two different players both hold the highest total. */
  lemma TieSharesTop(standings: seq<Standing>)
    requires |standings| >= 1 && FinalOutcome(standings) == Tie
    ensures exists i, j :: 0 <= i < j < |standings| && standings[i].total == MaxTotal(standings) && standings[j].total == MaxTotal(standings)
  {
    var ranked := SortBy(standings, HigherTotalFirst);
    RankedFacts(standings);
    var top := MaxTotal(standings);
    assert ranked[0].total == top && ranked[1].total == top;
    if ranked[0] == ranked[1] {
      RepeatedCount(ranked, 0, 1);
      TwoOccurrences(standings, ranked[0]);
    } else {
      assert ranked[0] in multiset(standings) && ranked[1] in multiset(standings);
      var i :| 0 <= i < |standings| && standings[i] == ranked[0];
      var j :| 0 <= j < |standings| && standings[j] == ranked[1];
      if i < j {
        assert standings[i].total == top && standings[j].total == top;
      } else {
        assert standings[j].total == top && standings[i].total == top;
      }
    }
  }

  /** When there is a winner, it is a player whose total is above every other player's. */
  lemma WinnerBeatsOthers(standings: seq<Standing>) returns (i: nat)
    requires |standings| >= 1 && FinalOutcome(standings).Wins?
    ensures i < |standings| && standings[i] == Standing(FinalOutcome(standings).name, FinalOutcome(standings).total)
    ensures standings[i].total == MaxTotal(standings)
    ensures forall j :: 0 <= j < |standings| && j != i ==> standings[j].total < standings[i].total
  {
    var ranked := SortBy(standings, HigherTotalFirst);
    RankedFacts(standings);
    SortBySorted(standings, HigherTotalFirst);
    if |ranked| > 1 {
      assert HigherTotalFirst(ranked[0]) <= HigherTotalFirst(ranked[1]);
    }
    assert ranked[0] in multiset(standings);
    i :| 0 <= i < |standings| && standings[i] == ranked[0];
    assert ranked == [ranked[0]] + ranked[1..];
    assert multiset(ranked) == multiset{ranked[0]} + multiset(ranked[1..]);
    forall j | 0 <= j < |standings| && j != i ensures standings[j].total < standings[i].total {
      OthersBelowWinner(standings, ranked, i, j);
    }
  }

  lemma OthersBelowWinner(standings: seq<Standing>, ranked: seq<Standing>, i: nat, j: nat)
    requires |ranked| >= 1 && multiset(ranked[1..]) + multiset{ranked[0]} == multiset(standings)
    requires forall m :: 1 <= m < |ranked| ==> ranked[m].total < ranked[0].total
    requires i < |standings| && j < |standings| && j != i && standings[i] == ranked[0]
    ensures standings[j].total < standings[i].total
  {
    var rest := standings[..i] + standings[i + 1..];
    assert standings == standings[..i] + [standings[i]] + standings[i + 1..];
    assert multiset(standings) == multiset(rest) + multiset{standings[i]};
    forall x ensures multiset(ranked[1..])[x] == multiset(rest)[x] {
      assert (multiset(ranked[1..]) + multiset{ranked[0]})[x] == (multiset(rest) + multiset{standings[i]})[x];
    }
    assert multiset(ranked[1..]) == multiset(rest);
    if j < i {
      assert rest[j] == standings[j];
    } else {
      assert rest[j - 1] == standings[j];
    }
    assert standings[j] in multiset(ranked[1..]);
    var m :| 0 <= m < |ranked[1..]| && ranked[1..][m] == standings[j];
    assert ranked[m + 1] == standings[j];
  }

  /** With two players: a tie on equal totals, otherwise the higher total wins; one player always wins. */
  lemma FinalOutcomeSmallTables(a: Standing, b: Standing)
    ensures FinalOutcome([a]) == Wins(a.name, a.total)
    ensures FinalOutcome([a, b]) ==
      if a.total == b.total then Tie
      else if a.total > b.total then Wins(a.name, a.total)
      else Wins(b.name, b.total)
  {
    assert [a][..0] == [] && [a][1..] == [];
    assert SortBy([a], HigherTotalFirst) == [a];
    assert [a, b][..1] == [a] && [a, b][1] == b;
    assert SortBy([a, b], HigherTotalFirst) == Insert(b, [a], HigherTotalFirst);
    if b.total > a.total {
      assert SortBy([a, b], HigherTotalFirst) == [b, a];
    } else {
      assert Insert(b, [], HigherTotalFirst) == [b];
      assert SortBy([a, b], HigherTotalFirst) == [a, b];
    }
  }
}
