/**
 * The roster of the 5-a-side team picker: one entry per player, as the
 * sidebar form collects it, the derived `overall` score and the colour of
 * the player's card.
 */
module Roster {

  /** The positions offered by the form; they play no part in balancing. */
  datatype Position = GK | DEF | MID | FWD

  /** One roster entry: a display name, a position and five slider ratings. */
  datatype Player = Player(
    name: string,
    pos: Position,
    attack: int,
    defense: int,
    passing: int,
    pace: int,
    physical: int)

  /** Every slider runs from 0 to 10. */
  const MinRating: int := 0
  const MaxRating: int := 10

  predicate InRange(rating: int) {
    MinRating <= rating <= MaxRating
  }

  /** What the sliders guarantee of every entry. */
  predicate RatingsInRange(p: Player) {
    InRange(p.attack) && InRange(p.defense) && InRange(p.passing) &&
    InRange(p.pace) && InRange(p.physical)
  }

  /** The five sub-ratings added up: five times the overall score. */
  function RatingSum(p: Player): int {
    p.attack + p.defense + p.passing + p.pace + p.physical
  }

  function Min(a: int, b: int): int { if a <= b then a else b }
  function Max(a: int, b: int): int { if a <= b then b else a }

  /** The weakest of the five sub-ratings. */
  function Lowest(p: Player): int {
    Min(Min(Min(Min(p.attack, p.defense), p.passing), p.pace), p.physical)
  }

  /** The strongest of the five sub-ratings. */
  function Highest(p: Player): int {
    Max(Max(Max(Max(p.attack, p.defense), p.passing), p.pace), p.physical)
  }

  /**
   * The overall score: the exact arithmetic mean of the five sub-ratings.
   * Being a mean, it lies between the weakest and the strongest rating.
   */
  function Overall(p: Player): (r: real)
    ensures Lowest(p) as real <= r <= Highest(p) as real
  {
    RatingSum(p) as real / 5.0
  }

  /** With slider ratings, the overall score lies in [0, 10]. */
  lemma OverallInRange(p: Player)
    requires RatingsInRange(p)
    ensures MinRating as real <= Overall(p) <= MaxRating as real
  {
  }

  /** The character of a decimal digit. */
  function DigitChar(d: nat): char
    requires d < 10
  {
    ('0' as int + d) as char
  }

  /** The decimal digits of n, most significant first, as Python's f-string writes them. */
  function Decimal(n: nat): (s: string)
    ensures s != []
    ensures forall i :: 0 <= i < |s| ==> '0' <= s[i] <= '9'
    ensures n < 10 <==> |s| == 1
    decreases n
  {
    if n < 10 then [DigitChar(n)] else Decimal(n / 10) + [DigitChar(n % 10)]
  }

  /** Different numbers are written differently. */
  lemma {:induction false} DecimalInjective(a: nat, b: nat)
    requires Decimal(a) == Decimal(b)
    ensures a == b
    decreases a
  {
    if a >= 10 && b >= 10 {
      var da, db := Decimal(a), Decimal(b);
      assert da[..|da| - 1] == Decimal(a / 10);
      assert db[..|db| - 1] == Decimal(b / 10);
      DecimalInjective(a / 10, b / 10);
      assert da[|da| - 1] == db[|db| - 1];
    }
  }

  /** A blank name is replaced by "Player <i+1>", so no roster name is blank. */
  function DisplayName(i: nat, typed: string): (name: string)
    ensures name != []
    ensures typed != [] ==> name == typed
    ensures typed == [] ==> |name| > 7 && name[..7] == "Player " && name[7..] == Decimal(i + 1)
  {
    if typed != [] then typed else "Player " + Decimal(i + 1)
  }

  /** Two blank entries at different places of the form get different names. */
  lemma DefaultNamesDistinct(i: nat, j: nat)
    requires i != j
    ensures DisplayName(i, "") != DisplayName(j, "")
  {
    if DisplayName(i, "") == DisplayName(j, "") {
      DecimalInjective(i + 1, j + 1);
    }
  }

  /** The entry for the i-th expander of the form (0-based). */
  function MakePlayer(i: nat, typed: string, pos: Position,
                      attack: int, defense: int, passing: int, pace: int, physical: int): (p: Player)
    ensures p.name == DisplayName(i, typed) && p.name != [] && p.pos == pos
    ensures p.attack == attack && p.defense == defense && p.passing == passing
    ensures p.pace == pace && p.physical == physical
    ensures Overall(p) == (attack + defense + passing + pace + physical) as real / 5.0
    ensures InRange(attack) && InRange(defense) && InRange(passing) && InRange(pace) && InRange(physical)
      ==> RatingsInRange(p) && 0.0 <= Overall(p) <= 10.0
  {
    Player(DisplayName(i, typed), pos, attack, defense, passing, pace, physical)
  }

  /** The three card colours. */
  datatype Card = Gold | Silver | Bronze

  /** Gold from 8 up, silver from 5 up to 8, bronze below 5: exactly one applies. */
  function CardColor(overall: real): (c: Card)
    ensures c == Gold <==> 8.0 <= overall
    ensures c == Silver <==> 5.0 <= overall < 8.0
    ensures c == Bronze <==> overall < 5.0
  {
    if overall >= 8.0 then Gold
    else if overall >= 5.0 then Silver
    else Bronze
  }

  /** The card thresholds, read on the integer rating sum (40 and 25). */
  lemma CardColorByRatingSum(p: Player)
    ensures CardColor(Overall(p)) == Gold <==> RatingSum(p) >= 40
    ensures CardColor(Overall(p)) == Silver <==> 25 <= RatingSum(p) < 40
    ensures CardColor(Overall(p)) == Bronze <==> RatingSum(p) < 25
  {
  }

  /** Ranks the colours, bronze lowest. */
  function Rank(c: Card): nat {
    match c
    case Bronze => 0
    case Silver => 1
    case Gold => 2
  }

  /** A higher overall never gets a lower card. */
  lemma CardColorMonotone(x: real, y: real)
    requires x <= y
    ensures Rank(CardColor(x)) <= Rank(CardColor(y))
  {
  }
}
