/**
 * A playing card of the HighSuit game: an immutable (rank, suit) value with
 * a scoring table, a rank-only ordering and two textual renderings.
 */
module Cards {
  import opened Options

  /** Rank index: 0 is the two, 8 the ten, 9, 10, 11 the Jack, Queen, King, 12 the Ace. */
  type Rank = r: int | 0 <= r <= 12

  /** Suit index: 0 Clubs, 1 Diamonds, 2 Hearts, 3 Spades. */
  type Suit = s: int | 0 <= s <= 3

  datatype Card = Card(rank: Rank, suit: Suit)

  const RankNames: seq<string> :=
    ["2", "3", "4", "5", "6", "7", "8", "9", "10", "Jack", "Queen", "King", "Ace"]

  const SuitNames: seq<string> := ["Clubs", "Diamonds", "Hearts", "Spades"]

  /** Points a card scores, indexed by rank. */
  const Values: seq<int> := [2, 3, 4, 5, 6, 7, 8, 9, 10, 10, 10, 10, 11]

  /** Club, diamond, heart and spade symbols (U+2663, U+2666, U+2665, U+2660). */
  const SuitSymbols: seq<char> := ['\U{2663}', '\U{2666}', '\U{2665}', '\U{2660}']

  function RankName(c: Card): string
  {
    RankNames[c.rank]
  }

  function SuitName(c: Card): string
  {
    SuitNames[c.suit]
  }

  /** The card's score: face value for 2..10, ten for a picture card, eleven for an Ace. */
  function Score(c: Card): (v: int)
    ensures 2 <= v <= 11
  {
    Values[c.rank]
  }

  function IsBiggerThan(c: Card, other: Card): bool
  {
    c.rank > other.rank
  }

  /** Three-way comparison on rank only; the suit plays no part. */
  function CompareTo(c: Card, other: Card): (r: int)
    ensures -1 <= r <= 1
  {
    if c.rank > other.rank then 1
    else if c.rank < other.rank then -1
    else 0
  }

  function Equals(c: Card, other: Card): bool
  {
    c.rank == other.rank && c.suit == other.suit
  }

  function HashCode(c: Card): int
  {
    31 * c.rank + c.suit
  }

  /** Short rank text used by the symbol form: digits, then J, Q, K, A. */
  function RankSymbol(r: Rank): string
  {
    if r < 8 then RankNames[r]
    else if r == 8 then "10"
    else if r == 9 then "J"
    else if r == 10 then "Q"
    else if r == 11 then "K"
    else "A"
  }

  /** Compact form such as "10" followed by the diamond symbol. */
  function ToSymbol(c: Card): string
  {
    RankSymbol(c.rank) + [SuitSymbols[c.suit]]
  }

  /** Long form such as "Ace of Spades". */
  function ToString(c: Card): string
  {
    RankName(c) + " of " + SuitName(c)
  }

  // ---------------------------------------------------------------------
  // Properties
  // ---------------------------------------------------------------------

  /** The scoring table spelled out rank by rank. */
  lemma ScoreByRank(c: Card)
    ensures c.rank <= 8 ==> Score(c) == c.rank + 2
    ensures 9 <= c.rank <= 11 ==> Score(c) == 10
    ensures c.rank == 12 ==> Score(c) == 11
  {
  }

  /** isBiggerThan compares rank only, is irreflexive and agrees with compareTo. */
  lemma IsBiggerThanByRank(c: Card, other: Card)
    ensures IsBiggerThan(c, other) <==> c.rank > other.rank
    ensures !IsBiggerThan(c, c)
    ensures IsBiggerThan(c, other) <==> CompareTo(c, other) > 0
    ensures IsBiggerThan(c, other) ==> !IsBiggerThan(other, c)
  {
  }

  /** compareTo is the sign of the rank difference: antisymmetric, suit-blind, transitive. */
  lemma CompareToIsRankOrder(a: Card, b: Card, c: Card)
    ensures CompareTo(a, b) == -CompareTo(b, a)
    ensures CompareTo(a, b) == 0 <==> a.rank == b.rank
    ensures CompareTo(a, b) < 0 <==> a.rank < b.rank
    ensures CompareTo(a, b) <= 0 && CompareTo(b, c) <= 0 ==> CompareTo(a, c) <= 0
    ensures CompareTo(a, Card(a.rank, b.suit)) == 0
  {
  }

  /** equals is exactly value equality of the (rank, suit) pair. */
  lemma EqualsIsValueEquality(c: Card, other: Card)
    ensures Equals(c, other) <==> c == other
  {
  }

  /** Equal cards hash alike, and different cards hash differently. */
  lemma HashCodeInjective(c: Card, other: Card)
    ensures Equals(c, other) ==> HashCode(c) == HashCode(other)
    ensures HashCode(c) == HashCode(other) ==> c == other
  {
  }

  /** Decodes the rank part of the symbol form. */
  function RankOfSymbol(s: string): Option<Rank>
  {
    if s == "2" then Some(0) else if s == "3" then Some(1) else if s == "4" then Some(2)
    else if s == "5" then Some(3) else if s == "6" then Some(4) else if s == "7" then Some(5)
    else if s == "8" then Some(6) else if s == "9" then Some(7) else if s == "10" then Some(8)
    else if s == "J" then Some(9) else if s == "Q" then Some(10) else if s == "K" then Some(11)
    else if s == "A" then Some(12) else None
  }

  /** Decodes a symbol form back into a card. */
  function CardOfSymbol(s: string): Option<Card>
  {
    if |s| < 2 then None
    else
      var last := s[|s| - 1];
      var suit: int := if last == SuitSymbols[0] then 0 else if last == SuitSymbols[1] then 1
                       else if last == SuitSymbols[2] then 2 else if last == SuitSymbols[3] then 3
                       else -1;
      match RankOfSymbol(s[..|s| - 1])
      case Some(r) => if suit >= 0 then Some(Card(r, suit)) else None
      case None => None
  }

  lemma RankOfSymbolInverse(r: Rank)
    ensures RankOfSymbol(RankSymbol(r)) == Some(r)
  {
    if r < 8 {
      assert RankSymbol(r) == RankNames[r];
    }
  }

  /** The symbol form can be read back, so distinct cards get distinct symbols. */
  lemma ToSymbolInjective(c: Card, other: Card)
    ensures CardOfSymbol(ToSymbol(c)) == Some(c)
    ensures ToSymbol(c) == ToSymbol(other) ==> c == other
  {
    var s := ToSymbol(c);
    assert s[..|s| - 1] == RankSymbol(c.rank);
    RankOfSymbolInverse(c.rank);
    if ToSymbol(c) == ToSymbol(other) {
      var t := ToSymbol(other);
      assert t[..|t| - 1] == RankSymbol(other.rank);
      RankOfSymbolInverse(other.rank);
    }
  }

  /** The two examples exercised in the source's tests. */
  lemma ToSymbolExamples()
    ensures ToSymbol(Card(8, 1)) == "10\U{2666}"
    ensures ToSymbol(Card(12, 3)) == "A\U{2660}"
    ensures ToSymbol(Card(0, 0)) == "2\U{2663}"
  {
  }

  /** Decodes the rank part of the long form. */
  function RankOfName(s: string): Option<Rank>
  {
    if s == "2" then Some(0) else if s == "3" then Some(1) else if s == "4" then Some(2)
    else if s == "5" then Some(3) else if s == "6" then Some(4) else if s == "7" then Some(5)
    else if s == "8" then Some(6) else if s == "9" then Some(7) else if s == "10" then Some(8)
    else if s == "Jack" then Some(9) else if s == "Queen" then Some(10)
    else if s == "King" then Some(11) else if s == "Ace" then Some(12) else None
  }

  /** Decodes the long form: the next-to-last letter tells the suit apart. */
  function CardOfString(s: string): Option<Card>
  {
    if |s| < 2 then None
    else
      var key := s[|s| - 2];
      var suit: int := if key == 'b' then 0 else if key == 'd' then 1
                       else if key == 't' then 2 else if key == 'e' then 3 else -1;
      if suit < 0 || |s| < |SuitNames[suit]| + 4 then None
      else
        match RankOfName(s[..|s| - |SuitNames[suit]| - 4])
        case Some(r) => Some(Card(r, suit))
        case None => None
  }

  lemma RankOfNameInverse(r: Rank)
    ensures RankOfName(RankNames[r]) == Some(r)
  {
  }

  /** Decodes a suit name. */
  function SuitOfName(s: string): Option<Suit>
  {
    if s == "Clubs" then Some(0) else if s == "Diamonds" then Some(1)
    else if s == "Hearts" then Some(2) else if s == "Spades" then Some(3) else None
  }

  lemma SuitOfNameInverse(s: Suit)
    ensures SuitOfName(SuitNames[s]) == Some(s)
  {
  }

  /** getRank and getSuit name the card's own rank and suit: both read back. */
  lemma CardNamesInverse(c: Card)
    ensures RankOfName(RankName(c)) == Some(c.rank)
    ensures SuitOfName(SuitName(c)) == Some(c.suit)
  {
    RankOfNameInverse(c.rank);
    SuitOfNameInverse(c.suit);
  }

  /** The long form can be read back, so distinct cards get distinct names. */
  lemma ToStringInjective(c: Card, other: Card)
    ensures CardOfString(ToString(c)) == Some(c)
    ensures ToString(c) == ToString(other) ==> c == other
  {
    ToStringRoundTrip(c);
    ToStringRoundTrip(other);
  }

  lemma ToStringRoundTrip(c: Card)
    ensures CardOfString(ToString(c)) == Some(c)
  {
    var s := ToString(c);
    var sn := SuitNames[c.suit];
    assert s == RankNames[c.rank] + " of " + sn;
    assert s[|s| - 2] == sn[|sn| - 2];
    assert s[..|s| - |sn| - 4] == RankNames[c.rank];
    RankOfNameInverse(c.rank);
  }

  lemma ToStringExamples()
    ensures ToString(Card(0, 0)) == "2 of Clubs"
    ensures ToString(Card(12, 3)) == "Ace of Spades"
  {
  }
}
