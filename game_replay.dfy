/**
 * The replay log: for each round, one record per player of how the hand
 * evolved. Rounds and records are only ever appended.
 */
module Replay {
  import opened Cards

  /**
   * One player's round. The Java constructor copies the three lists it is
   * given; a datatype value is immutable, so later changes to the player's
   * hand or to the caller's position list cannot reach a stored record.
   */
  datatype PlayerRoundData = PlayerRoundData(
    playerName: string,
    initialHand: seq<Card>,
    bonusSuit: int,
    swappedCards: seq<int>,
    finalHand: seq<Card>,
    roundScore: int)

  /** The records of one round, in player order. */
  class RoundReplay {
    var playerData: seq<PlayerRoundData>

    constructor ()
      ensures playerData == []
    {
      playerData := [];
    }

    method AddPlayerData(data: PlayerRoundData)
      modifies this
      ensures playerData == old(playerData) + [data]
    {
      playerData := playerData + [data];
    }
  }

  /** The whole game's replay: each round's records, oldest first. */
  class GameReplay {
    var rounds: seq<seq<PlayerRoundData>>

    constructor ()
      ensures rounds == []
    {
      rounds := [];
    }

    /** Appends the round's records; earlier rounds are untouched. */
    method AddRound(round: RoundReplay)
      modifies this
      ensures rounds == old(rounds) + [round.playerData]
      ensures forall i :: 0 <= i < |old(rounds)| ==> rounds[i] == old(rounds)[i]
    {
      rounds := rounds + [round.playerData];
    }
  }
}
