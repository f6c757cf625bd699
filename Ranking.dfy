/**
 * The ranking of src/game/gameplay/PlayerComparator.java: players compare
 * by score, then by number of open cards, then by the number of colours
 * among the open cards (the size of the open map), lower first.
 */
module Ranking {
  import opened Players
  import opened Sorting

  /** The three keys the comparator reads from a player, in comparison order. */
  datatype Rank = Rank(score: int, total: nat, colors: nat)

  /** The keys of `p`: `getScore`, `getTotalOpenCards`, `getOpenCards().size()`. */
  function RankOf(p: Player): Rank
    reads p`score, p`openCards
  {
    Rank(p.score, p.TotalOpenCards(), |p.openCards|)
  }

  /** `Integer.compare`: -1, 0 or 1 as `a` is below, equal to or above `b`. */
  function IntCompare(a: int, b: int): (r: int)
    ensures -1 <= r <= 1
    ensures r < 0 <==> a < b
    ensures r == 0 <==> a == b
  {
    if a < b then -1 else if a == b then 0 else 1
  }

  /** `compare`: the first key that differs decides. */
  function Compare(a: Rank, b: Rank): (r: int)
    ensures -1 <= r <= 1
  {
    var r1 := IntCompare(a.score, b.score);
    if r1 != 0 then r1
    else
      var r2 := IntCompare(a.total, b.total);
      if r2 != 0 then r2
      else IntCompare(a.colors, b.colors)
  }

  /** `a` sorts strictly before `b`. */
  predicate RankBefore(a: Rank, b: Rank) {
    Compare(a, b) < 0
  }

  /** The comparator is the lexicographic order on (score, total, colours). */
  lemma CompareLexicographic(a: Rank, b: Rank)
    ensures Compare(a, b) < 0 <==>
              || a.score < b.score
              || (a.score == b.score && a.total < b.total)
              || (a.score == b.score && a.total == b.total && a.colors < b.colors)
  {
  }

  /** Two ranks compare as equal exactly when all three keys agree; in particular a player ties with itself. */
  lemma CompareZero(a: Rank, b: Rank)
    ensures Compare(a, b) == 0 <==> a == b
  {
  }

  /** Swapping the arguments flips the sign. */
  lemma CompareAntisymmetric(a: Rank, b: Rank)
    ensures Compare(b, a) == -Compare(a, b)
  {
  }

  /** The order is transitive, both for "at most" and for "strictly before". */
  lemma CompareTransitive(a: Rank, b: Rank, c: Rank)
    ensures Compare(a, b) <= 0 && Compare(b, c) <= 0 ==> Compare(a, c) <= 0
    ensures Compare(a, b) < 0 && Compare(b, c) <= 0 ==> Compare(a, c) < 0
    ensures Compare(a, b) <= 0 && Compare(b, c) < 0 ==> Compare(a, c) < 0
  {
    CompareLexicographic(a, b);
    CompareLexicographic(b, c);
    CompareLexicographic(a, c);
    CompareZero(a, b);
    CompareZero(b, c);
  }

  /** Any two ranks are comparable: one sorts before the other or they are equal. */
  lemma CompareTotal(a: Rank, b: Rank)
    ensures RankBefore(a, b) || RankBefore(b, a) || a == b
  {
    CompareAntisymmetric(a, b);
    CompareZero(a, b);
  }

  /** RankBefore is a strict order, as the stable sort needs. */
  lemma RankOrder()
    ensures StrictOrder(RankBefore)
  {
    forall a, b, c | RankBefore(a, b) && RankBefore(b, c)
      ensures RankBefore(a, c)
    {
      CompareTransitive(a, b, c);
    }
  }
}
