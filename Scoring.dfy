/**
 * The final scoring pass of src/game/gameplay/managers/ScoreCalculator.java:
 * every player recomputes the score from the open cards.
 */
module Scoring {
  import opened Players

  /**
   * Each player's score becomes the sum of that player's open-card values.
   * Only scores change: the list, the open cards and the card values stay.
   */
  method CalculateFinalScores(players: seq<Player>)
    modifies players`score
    ensures forall i :: 0 <= i < |players| ==> players[i].score == OpenScore(players[i].openCards)
  {
    for i := 0 to |players|
      invariant forall j :: 0 <= j < i ==> players[j].score == OpenScore(players[j].openCards)
    {
      assert forall j :: 0 <= j < |players| ==> allocated(OpenList(players[j].openCards));
      players[i].CalculateScore();
    }
  }

  /**
   * A property of `CalculateFinalScores`, not an operation of the program:
   * scoring twice gives the scores of scoring once, since a score depends on
   * the open cards only, which scoring does not touch. It is a method
   * because scoring changes state, and it runs the operation twice.
   */
  method CalculateTwice(players: seq<Player>) returns (first: seq<int>, second: seq<int>)
    modifies players`score
    ensures |first| == |players| && second == first
  {
    CalculateFinalScores(players);
    first := seq(|players|, i requires 0 <= i < |players| reads players => players[i].score);
    assert forall j :: 0 <= j < |players| ==> allocated(OpenList(players[j].openCards));
    label Once:
    CalculateFinalScores(players);
    second := seq(|players|, i requires 0 <= i < |players| reads players => players[i].score);
    forall i | 0 <= i < |players|
      ensures second[i] == first[i]
    {
      assert OpenScore(players[i].openCards) == old@Once(OpenScore(players[i].openCards));
    }
  }
}
