/**
 * The winner decision of src/game/gameplay/managers/WinnerDeterminer.java.
 * The player list is sorted by the comparator; the potential winners are
 * the players with the first player's score, which is the lowest; those
 * of them that compare equal to the first in all three keys are tied, and
 * a tie of two or more goes to the dice, whose order then heads the list.
 *
 * The rules are stated over a snapshot of the players' ranks, which no
 * step of the decision changes.
 */
module Winners {
  import opened Lists
  import opened Sorting
  import opened Players
  import opened Ranking
  import opened TieBreaking

  /** Each player's rank, as it stands. */
  type Ranks = map<Player, Rank>

  /** The ranks of the players of `ps`. */
  function RankMap(ps: seq<Player>): (r: Ranks)
    reads ps`score, ps`openCards
    ensures Keyed(ps, r)
  {
    map p | p in ps :: RankOf(p)
  }

  /** The players among the first `i` of `ps` whose score is `top`, in list order. */
  function ScoreTies(ps: seq<Player>, ranks: Ranks, top: int, i: nat): (r: seq<Player>)
    requires i <= |ps| && Keyed(ps, ranks)
    ensures |r| <= i && Keyed(r, ranks)
  {
    if i == 0 then []
    else
      var prev := ScoreTies(ps, ranks, top, i - 1);
      if ranks[ps[i - 1]].score == top then prev + [ps[i - 1]] else prev
  }

  /** The players among the first `i` of `ps` whose rank is `k`, in list order. */
  function RankTies(ps: seq<Player>, ranks: Ranks, k: Rank, i: nat): (r: seq<Player>)
    requires i <= |ps| && Keyed(ps, ranks)
    ensures |r| <= i && Keyed(r, ranks)
  {
    if i == 0 then []
    else
      var prev := RankTies(ps, ranks, k, i - 1);
      if ranks[ps[i - 1]] == k then prev + [ps[i - 1]] else prev
  }

  /** The first player always has the score it is compared against, so it heads its ties. */
  lemma {:induction false} ScoreTiesFirst(ps: seq<Player>, ranks: Ranks, i: nat)
    requires 0 < i <= |ps| && Keyed(ps, ranks)
    ensures var r := ScoreTies(ps, ranks, ranks[ps[0]].score, i); r != [] && r[0] == ps[0]
  {
    if i > 1 {
      ScoreTiesFirst(ps, ranks, i - 1);
    }
  }

  /** The ties of `ps` are players of `ps` with that score. */
  lemma {:induction false} ScoreTiesSound(ps: seq<Player>, ranks: Ranks, top: int, i: nat)
    requires i <= |ps| && Keyed(ps, ranks)
    ensures forall j :: 0 <= j < |ScoreTies(ps, ranks, top, i)| ==>
              ScoreTies(ps, ranks, top, i)[j] in ps[..i] && ranks[ScoreTies(ps, ranks, top, i)[j]].score == top
  {
    if i > 0 {
      ScoreTiesSound(ps, ranks, top, i - 1);
      assert ps[..i] == ps[..i - 1] + [ps[i - 1]];
    }
  }

  /** Every player of `ps` with that score is among its ties. */
  lemma {:induction false} ScoreTiesComplete(ps: seq<Player>, ranks: Ranks, top: int, i: nat)
    requires i <= |ps| && Keyed(ps, ranks)
    ensures forall j :: 0 <= j < i && ranks[ps[j]].score == top ==> ps[j] in ScoreTies(ps, ranks, top, i)
  {
    if i > 0 {
      ScoreTiesComplete(ps, ranks, top, i - 1);
    }
  }

  /** The rank ties of `ps` are players of `ps` with that rank. */
  lemma {:induction false} RankTiesSound(ps: seq<Player>, ranks: Ranks, k: Rank, i: nat)
    requires i <= |ps| && Keyed(ps, ranks)
    ensures forall j :: 0 <= j < |RankTies(ps, ranks, k, i)| ==>
              RankTies(ps, ranks, k, i)[j] in ps[..i] && ranks[RankTies(ps, ranks, k, i)[j]] == k
  {
    if i > 0 {
      RankTiesSound(ps, ranks, k, i - 1);
      assert ps[..i] == ps[..i - 1] + [ps[i - 1]];
    }
  }

  /** Every player of `ps` with that rank is among its rank ties. */
  lemma {:induction false} RankTiesComplete(ps: seq<Player>, ranks: Ranks, k: Rank, i: nat)
    requires i <= |ps| && Keyed(ps, ranks)
    ensures forall j :: 0 <= j < i && ranks[ps[j]] == k ==> ps[j] in RankTies(ps, ranks, k, i)
  {
    if i > 0 {
      RankTiesComplete(ps, ranks, k, i - 1);
    }
  }

  /** The score ties keep the order of `ps`. */
  lemma {:induction false} ScoreTiesOrdered(ps: seq<Player>, ranks: Ranks, top: int, i: nat)
    requires i <= |ps| && Keyed(ps, ranks)
    ensures Subsequence(ScoreTies(ps, ranks, top, i), ps[..i])
  {
    if i == 0 {
      assert ps[..0] == [];
    } else {
      var prev := ScoreTies(ps, ranks, top, i - 1);
      ScoreTiesOrdered(ps, ranks, top, i - 1);
      assert ps[..i] == ps[..i - 1] + [ps[i - 1]];
      if ranks[ps[i - 1]].score == top {
        SubsequenceSnoc(prev, ps[..i - 1], ps[i - 1]);
      } else {
        SubsequencePrefix(prev, ps[..i - 1], [ps[i - 1]]);
      }
    }
  }

  /** The rank ties keep the order of `ps`. */
  lemma {:induction false} RankTiesOrdered(ps: seq<Player>, ranks: Ranks, k: Rank, i: nat)
    requires i <= |ps| && Keyed(ps, ranks)
    ensures Subsequence(RankTies(ps, ranks, k, i), ps[..i])
  {
    if i == 0 {
      assert ps[..0] == [];
    } else {
      var prev := RankTies(ps, ranks, k, i - 1);
      RankTiesOrdered(ps, ranks, k, i - 1);
      assert ps[..i] == ps[..i - 1] + [ps[i - 1]];
      if ranks[ps[i - 1]] == k {
        SubsequenceSnoc(prev, ps[..i - 1], ps[i - 1]);
      } else {
        SubsequencePrefix(prev, ps[..i - 1], [ps[i - 1]]);
      }
    }
  }

  /** The tied players: the potential winners that compare equal to the first of them. */
  function TiedOf(sorted: seq<Player>, ranks: Ranks): (tied: seq<Player>)
    requires sorted != [] && Keyed(sorted, ranks)
    ensures |tied| <= |sorted| && Keyed(tied, ranks)
  {
    var pw := ScoreTies(sorted, ranks, ranks[sorted[0]].score, |sorted|);
    ScoreTiesFirst(sorted, ranks, |sorted|);
    RankTies(pw, ranks, ranks[pw[0]], |pw|)
  }

  /**
   * The potential winners are exactly the players with the first player's
   * score, in list order.
   */
  lemma PotentialWinnersExactly(sorted: seq<Player>, ranks: Ranks)
    requires sorted != [] && Keyed(sorted, ranks)
    ensures var pw := ScoreTies(sorted, ranks, ranks[sorted[0]].score, |sorted|);
            && Subsequence(pw, sorted)
            && forall p :: p in pw <==> p in sorted && ranks[p].score == ranks[sorted[0]].score
  {
    var top := ranks[sorted[0]].score;
    var pw := ScoreTies(sorted, ranks, top, |sorted|);
    assert sorted[..|sorted|] == sorted;
    ScoreTiesOrdered(sorted, ranks, top, |sorted|);
    ScoreTiesSound(sorted, ranks, top, |sorted|);
    ScoreTiesComplete(sorted, ranks, top, |sorted|);
    forall p | p in pw
      ensures p in sorted && ranks[p].score == top
    {
      var j :| 0 <= j < |pw| && pw[j] == p;
    }
    forall p | p in sorted && ranks[p].score == top
      ensures p in pw
    {
      var j :| 0 <= j < |sorted| && sorted[j] == p;
    }
  }

  /**
   * The tied players are exactly the players whose three keys all equal the
   * first player's, in list order.
   */
  lemma TiedExactly(sorted: seq<Player>, ranks: Ranks)
    requires sorted != [] && Keyed(sorted, ranks)
    ensures && Subsequence(TiedOf(sorted, ranks), sorted)
            && forall p :: p in TiedOf(sorted, ranks) <==> p in sorted && ranks[p] == ranks[sorted[0]]
  {
    var pw := ScoreTies(sorted, ranks, ranks[sorted[0]].score, |sorted|);
    ScoreTiesFirst(sorted, ranks, |sorted|);
    PotentialWinnersExactly(sorted, ranks);
    var k := ranks[pw[0]];
    var tied := RankTies(pw, ranks, k, |pw|);
    assert tied == TiedOf(sorted, ranks);
    assert pw[..|pw|] == pw;
    RankTiesOrdered(pw, ranks, k, |pw|);
    SubsequenceTrans(tied, pw, sorted);
    RankTiesSound(pw, ranks, k, |pw|);
    RankTiesComplete(pw, ranks, k, |pw|);
    forall p | p in tied
      ensures p in sorted && ranks[p] == k
    {
      var j :| 0 <= j < |tied| && tied[j] == p;
    }
    forall p | p in sorted && ranks[p] == k
      ensures p in tied
    {
      assert p in pw;
      var j :| 0 <= j < |pw| && pw[j] == p;
    }
  }

  /** The first player of the sorted list has the best rank: nobody sorts strictly before it. */
  lemma SortedFirstBest(ps: seq<Player>, ranks: Ranks)
    requires ps != [] && Keyed(ps, ranks)
    ensures var s := Sort(ps, ranks, RankBefore);
            && s != [] && s[0] in ps
            && forall p :: p in ps ==> !RankBefore(ranks[p], ranks[s[0]])
  {
    var s := Sort(ps, ranks, RankBefore);
    RankOrder();
    SortSorted(ps, ranks, RankBefore);
    SortMembers(ps, ranks, RankBefore);
    forall p | p in ps
      ensures !RankBefore(ranks[p], ranks[s[0]])
    {
      var j :| 0 <= j < |s| && s[j] == p;
      if j > 0 {
        assert !RankBefore(ranks[s[j]], ranks[s[0]]);
      }
    }
  }

  /**
   * `sortPlayers` puts the players in ascending order of the comparator,
   * keeps every player, and keeps the list order of players that compare
   * as equal.
   */
  lemma SortedAscending(ps: seq<Player>, ranks: Ranks)
    requires Keyed(ps, ranks)
    ensures var s := Sort(ps, ranks, RankBefore);
            && multiset(s) == multiset(ps)
            && (forall i, j :: 0 <= i < j < |s| ==> Compare(ranks[s[i]], ranks[s[j]]) <= 0)
            && forall k :: WithKey(s, ranks, k) == WithKey(ps, ranks, k)
  {
    var s := Sort(ps, ranks, RankBefore);
    RankOrder();
    SortPermutes(ps, ranks, RankBefore);
    SortSorted(ps, ranks, RankBefore);
    SortMembers(ps, ranks, RankBefore);
    forall k ensures WithKey(s, ranks, k) == WithKey(ps, ranks, k) {
      SortStable(ps, ranks, RankBefore, k);
    }
    forall i, j | 0 <= i < j < |s|
      ensures Compare(ranks[s[i]], ranks[s[j]]) <= 0
    {
      assert !RankBefore(ranks[s[j]], ranks[s[i]]);
      CompareAntisymmetric(ranks[s[i]], ranks[s[j]]);
    }
  }

  /**
   * When every player with the score `top` has only such players before
   * it, the score ties are a prefix, and nobody after them has that score.
   */
  lemma {:induction false} ScoreTiesPrefix(ps: seq<Player>, ranks: Ranks, top: int, i: nat)
    requires i <= |ps| && Keyed(ps, ranks)
    requires forall a, b :: 0 <= a < b < |ps| && ranks[ps[b]].score == top ==> ranks[ps[a]].score == top
    ensures var r := ScoreTies(ps, ranks, top, i);
            && r == ps[..|r|]
            && forall j :: |r| <= j < i ==> ranks[ps[j]].score != top
  {
    if i > 0 {
      ScoreTiesPrefix(ps, ranks, top, i - 1);
      var r := ScoreTies(ps, ranks, top, i - 1);
      if ranks[ps[i - 1]].score == top {
        assert |r| == i - 1;
        assert ps[..i] == ps[..i - 1] + [ps[i - 1]];
      }
    }
  }

  /** The same for the rank ties. */
  lemma {:induction false} RankTiesPrefix(ps: seq<Player>, ranks: Ranks, k: Rank, i: nat)
    requires i <= |ps| && Keyed(ps, ranks)
    requires forall a, b :: 0 <= a < b < |ps| && ranks[ps[b]] == k ==> ranks[ps[a]] == k
    ensures var r := RankTies(ps, ranks, k, i);
            && r == ps[..|r|]
            && forall j :: |r| <= j < i ==> ranks[ps[j]] != k
  {
    if i > 0 {
      RankTiesPrefix(ps, ranks, k, i - 1);
      var r := RankTies(ps, ranks, k, i - 1);
      if ranks[ps[i - 1]] == k {
        assert |r| == i - 1;
        assert ps[..i] == ps[..i - 1] + [ps[i - 1]];
      }
    }
  }

  /**
   * In the sorted list, a player with the first player's score, or with
   * its whole rank, has only such players before it.
   */
  lemma SortedClosed(ps: seq<Player>, ranks: Ranks)
    requires ps != [] && Keyed(ps, ranks)
    ensures var s := Sort(ps, ranks, RankBefore);
            && s != []
            && (forall a, b :: 0 <= a < b < |s| && ranks[s[b]].score == ranks[s[0]].score ==>
                  ranks[s[a]].score == ranks[s[0]].score)
            && (forall a, b :: 0 <= a < b < |s| && ranks[s[b]] == ranks[s[0]] ==> ranks[s[a]] == ranks[s[0]])
  {
    var s := Sort(ps, ranks, RankBefore);
    RankOrder();
    SortSorted(ps, ranks, RankBefore);
    SortedFirstBest(ps, ranks);
    SortMembers(ps, ranks, RankBefore);
    forall a, b | 0 <= a < b < |s|
      ensures ranks[s[b]].score == ranks[s[0]].score ==> ranks[s[a]].score == ranks[s[0]].score
      ensures ranks[s[b]] == ranks[s[0]] ==> ranks[s[a]] == ranks[s[0]]
    {
      assert !RankBefore(ranks[s[b]], ranks[s[a]]);
      assert !RankBefore(ranks[s[a]], ranks[s[0]]);
      CompareLexicographic(ranks[s[b]], ranks[s[a]]);
      CompareLexicographic(ranks[s[a]], ranks[s[0]]);
      CompareTotal(ranks[s[a]], ranks[s[0]]);
    }
  }

  /**
   * In a list where the first player's score and rank are only ever
   * preceded by the same, the tied players are a prefix.
   */
  lemma TiedPrefixOf(s: seq<Player>, ranks: Ranks)
    requires s != [] && Keyed(s, ranks)
    requires forall a, b :: 0 <= a < b < |s| && ranks[s[b]].score == ranks[s[0]].score ==>
               ranks[s[a]].score == ranks[s[0]].score
    requires forall a, b :: 0 <= a < b < |s| && ranks[s[b]] == ranks[s[0]] ==> ranks[s[a]] == ranks[s[0]]
    ensures var t := TiedOf(s, ranks); t == s[..|t|]
  {
    var pw := ScoreTies(s, ranks, ranks[s[0]].score, |s|);
    ScoreTiesPrefix(s, ranks, ranks[s[0]].score, |s|);
    ScoreTiesFirst(s, ranks, |s|);
    assert pw[0] == s[0];
    RankTiesPrefix(pw, ranks, ranks[pw[0]], |pw|);
  }

  /** The tied players are a prefix of the sorted list. */
  lemma TiedPrefix(ps: seq<Player>, ranks: Ranks)
    requires ps != [] && Keyed(ps, ranks)
    ensures var s := Sort(ps, ranks, RankBefore);
            var t := TiedOf(s, ranks);
            t == s[..|t|]
  {
    SortedClosed(ps, ranks);
    var s := Sort(ps, ranks, RankBefore);
    SortMembers(ps, ranks, RankBefore);
    TiedPrefixOf(s, ranks);
  }

  /** The dice order of the tied players, followed by everybody else in sorted order. */
  function TieOrder(sorted: seq<Player>, tied: seq<Player>, draws: seq<nat>): seq<Player>
    requires |tied| <= |draws|
  {
    var dice := Sort(tied, RollMap(tied, draws[..|tied|]), RollAbove);
    dice + Without(sorted, dice)
  }

  /** The player list after the decision; its first player is the winner. */
  function Standing(ps: seq<Player>, ranks: Ranks, draws: seq<nat>): (r: seq<Player>)
    requires ps != [] && Keyed(ps, ranks) && |ps| <= |draws|
    ensures r != []
  {
    var sorted := Sort(ps, ranks, RankBefore);
    var tied := TiedOf(sorted, ranks);
    if |tied| > 1 then TieOrder(sorted, tied, draws) else sorted
  }

  /** With two or more tied, the list is the tied players' dice order, then the rest of the sorted list. */
  lemma StandingTie(ps: seq<Player>, ranks: Ranks, draws: seq<nat>)
    requires ps != [] && Keyed(ps, ranks) && |ps| <= |draws|
    requires |TiedOf(Sort(ps, ranks, RankBefore), ranks)| > 1
    ensures var sorted := Sort(ps, ranks, RankBefore);
            var tied := TiedOf(sorted, ranks);
            var dice := Sort(tied, RollMap(tied, draws[..|tied|]), RollAbove);
            && |dice| == |tied|
            && Standing(ps, ranks, draws) == dice + Without(sorted, dice)
            && Standing(ps, ranks, draws)[0] == dice[0]
  {
  }

  /** With at most one tied player the list stays in sorted order, so its first player wins. */
  lemma StandingNoTie(ps: seq<Player>, ranks: Ranks, draws: seq<nat>)
    requires ps != [] && Keyed(ps, ranks) && |ps| <= |draws|
    requires |TiedOf(Sort(ps, ranks, RankBefore), ranks)| <= 1
    ensures var sorted := Sort(ps, ranks, RankBefore);
            && Standing(ps, ranks, draws) == sorted
            && Standing(ps, ranks, draws)[0] == sorted[0]
  {
  }

  /**
   * The winner is one of the players, nobody ranks strictly before it, and
   * so its score is the lowest of all.
   */
  lemma StandingWinner(ps: seq<Player>, ranks: Ranks, draws: seq<nat>)
    requires ps != [] && Keyed(ps, ranks) && |ps| <= |draws|
    ensures var w := Standing(ps, ranks, draws)[0];
            && w in ps
            && (forall p :: p in ps ==> !RankBefore(ranks[p], ranks[w]))
            && (forall p :: p in ps ==> ranks[w].score <= ranks[p].score)
  {
    var sorted := Sort(ps, ranks, RankBefore);
    var tied := TiedOf(sorted, ranks);
    var w := Standing(ps, ranks, draws)[0];
    SortedFirstBest(ps, ranks);
    SortMembers(ps, ranks, RankBefore);
    if |tied| > 1 {
      var d := draws[..|tied|];
      var dice := Sort(tied, RollMap(tied, d), RollAbove);
      TieWinner(tied, d);
      TiedExactly(sorted, ranks);
      StandingTie(ps, ranks, draws);
      assert ranks[w] == ranks[sorted[0]];
    }
    forall p | p in ps
      ensures ranks[w].score <= ranks[p].score
    {
      CompareLexicographic(ranks[p], ranks[w]);
    }
  }

  /**
   * When two or more players are tied, the winner is one of them with the
   * highest roll.
   */
  lemma StandingTieWinner(ps: seq<Player>, ranks: Ranks, draws: seq<nat>)
    requires ps != [] && Keyed(ps, ranks) && |ps| <= |draws|
    requires |TiedOf(Sort(ps, ranks, RankBefore), ranks)| > 1
    ensures var tied := TiedOf(Sort(ps, ranks, RankBefore), ranks);
            var rolls := RollMap(tied, draws[..|tied|]);
            var w := Standing(ps, ranks, draws)[0];
            && w in tied && w in rolls
            && forall p :: p in tied ==> rolls[w] >= rolls[p]
  {
    var tied := TiedOf(Sort(ps, ranks, RankBefore), ranks);
    TieWinner(tied, draws[..|tied|]);
    StandingTie(ps, ranks, draws);
  }

  /**
   * When two or more players are tied, the list is their dice order followed
   * by everybody else, who keep their sorted order.
   */
  lemma StandingTieOrder(ps: seq<Player>, ranks: Ranks, draws: seq<nat>)
    requires ps != [] && Keyed(ps, ranks) && |ps| <= |draws|
    requires |TiedOf(Sort(ps, ranks, RankBefore), ranks)| > 1
    ensures var sorted := Sort(ps, ranks, RankBefore);
            var tied := TiedOf(sorted, ranks);
            var rest := Standing(ps, ranks, draws)[|tied|..];
            && |tied| <= |Standing(ps, ranks, draws)|
            && Subsequence(rest, sorted)
            && forall p :: p in rest <==> p in sorted && p !in tied
  {
    var sorted := Sort(ps, ranks, RankBefore);
    var tied := TiedOf(sorted, ranks);
    var rolls := RollMap(tied, draws[..|tied|]);
    var dice := Sort(tied, rolls, RollAbove);
    var rest := Without(sorted, dice);
    StandingTie(ps, ranks, draws);
    assert (dice + rest)[|tied|..] == rest;
    WithoutSubsequence(sorted, dice);
    WithoutMembers(sorted, dice);
    SortMembers(tied, rolls, RollAbove);
  }

  /** Over distinct players the decision only reorders the list. */
  lemma StandingPermutes(ps: seq<Player>, ranks: Ranks, draws: seq<nat>)
    requires ps != [] && Keyed(ps, ranks) && |ps| <= |draws| && NoDup(ps)
    ensures multiset(Standing(ps, ranks, draws)) == multiset(ps)
  {
    var sorted := Sort(ps, ranks, RankBefore);
    var tied := TiedOf(sorted, ranks);
    SortPermutes(ps, ranks, RankBefore);
    if |tied| > 1 {
      var rolls := RollMap(tied, draws[..|tied|]);
      var dice := Sort(tied, rolls, RollAbove);
      NoDupPermutes(ps, sorted);
      TiedExactly(sorted, ranks);
      SortPermutes(tied, rolls, RollAbove);
      SortMembers(tied, rolls, RollAbove);
      OnlyRespectsMembership(sorted, dice, tied);
      OnlyOfSubsequence(sorted, tied);
      WithoutOnlySplit(sorted, dice);
      StandingTie(ps, ranks, draws);
    }
  }

  /** The snapshot `ranks` holds the current rank of each player of `ps`. */
  ghost predicate Current(ranks: Ranks, ps: seq<Player>)
    reads ps`score, ps`openCards
  {
    forall p :: p in ps ==> p in ranks && ranks[p] == RankOf(p)
  }

  /** A snapshot current for a list is current for any players drawn from it. */
  lemma CurrentSub(ranks: Ranks, ps: seq<Player>, sub: seq<Player>)
    requires Current(ranks, ps)
    requires forall j :: 0 <= j < |sub| ==> sub[j] in ps
    ensures Current(ranks, sub)
  {
  }

  class WinnerDeterminer {
    var players: seq<Player>

    constructor (players: seq<Player>)
      ensures this.players == players
    {
      this.players := players;
    }

    /**
     * `determineWinner`: sorts the list, finds the tied players and, when
     * two or more are tied, lets the dice order them at the head of the
     * list; the winner is the list's first player. `draws` supplies the
     * dice. An empty list has no winner (the source fails on `get(0)`).
     */
    method DetermineWinner(draws: seq<nat>) returns (winner: Player)
      requires players != [] && |players| <= |draws|
      modifies this`players
      ensures players == Standing(old(players), old(RankMap(players)), draws)
      ensures winner == players[0]
    {
      ghost var ranks := RankMap(players);
      SortPlayers();
      var pw := GetPotentialWinners(ranks);
      var tied := SameConditions(ranks, pw);
      if |tied| > 1 {
        winner := ResolveTie(tied, draws[..|tied|]);
        return;
      }
      winner := pw[0];
    }

    /** `sortPlayers`: the stable sort by the comparator. Ranks do not change. */
    method SortPlayers()
      modifies this`players
      ensures players == Sort(old(players), old(RankMap(players)), RankBefore)
      ensures Current(old(RankMap(players)), players)
    {
      var ranks := RankMap(players);
      var sorted := InsertionSort(players, ranks, RankBefore);
      SortMembers(players, ranks, RankBefore);
      assert Current(ranks, sorted);
      players := sorted;
    }

    /**
     * `getPotentialWinners`: the players with the first player's score, in
     * list order; none for an empty list. Over a non-empty list the first
     * player is the first of them.
     */
    method GetPotentialWinners(ghost ranks: Ranks) returns (winners: seq<Player>)
      requires Current(ranks, players)
      ensures players == [] ==> winners == []
      ensures players != [] ==>
                && winners == ScoreTies(players, ranks, ranks[players[0]].score, |players|)
                && winners != [] && winners[0] == players[0] && Current(ranks, winners)
    {
      winners := [];
      if players == [] {
        return;
      }
      var topScore := players[0].score;
      for i := 0 to |players|
        invariant winners == ScoreTies(players, ranks, topScore, i)
      {
        var p := players[i];
        if p.score == topScore {
          winners := winners + [p];
        }
      }
      ScoreTiesFirst(players, ranks, |players|);
      ScoreTiesSound(players, ranks, topScore, |players|);
      assert players[..|players|] == players;
      CurrentSub(ranks, players, winners);
    }

    /** The potential winners that compare equal to the first of them, in list order. */
    method SameConditions(ghost ranks: Ranks, pw: seq<Player>) returns (tied: seq<Player>)
      requires pw != [] && Current(ranks, pw)
      ensures tied == RankTies(pw, ranks, ranks[pw[0]], |pw|)
    {
      tied := [];
      for i := 0 to |pw|
        invariant tied == RankTies(pw, ranks, ranks[pw[0]], i)
      {
        CompareZero(RankOf(pw[0]), RankOf(pw[i]));
        if Compare(RankOf(pw[0]), RankOf(pw[i])) == 0 {
          tied := tied + [pw[i]];
        }
      }
    }

    /** `resolveTie`: the dice order the tied players, who then head the list. */
    method ResolveTie(tied: seq<Player>, draws: seq<nat>) returns (winner: Player)
      requires tied != [] && |draws| == |tied|
      modifies this`players
      ensures var dice := Sort(tied, RollMap(tied, draws), RollAbove);
              players == dice + Without(old(players), dice) && winner == dice[0]
    {
      var sorted;
      winner, sorted := TieBreaking.ResolveTie(tied, draws);
      UpdatePlayerOrder(sorted);
    }

    /** `updatePlayerOrder`: `removeAll` of the tied players, then `addAll` of them at the front. */
    method UpdatePlayerOrder(tied: seq<Player>)
      modifies this`players
      ensures players == tied + Without(old(players), tied)
    {
      players := tied + Without(players, tied);
    }
  }
}
