/**
 * The choice of the starting player in src/game/setup/StartingPlayerDecider.java.
 * Every contender rolls a die; the players who rolled the highest number
 * stay in, and rounds repeat until one player is left. `draws` supplies
 * one round's dice, one draw per contender in list order; `rounds`
 * supplies the rounds, so a run of ties longer than the supply ends
 * without a starting player instead of rolling forever.
 */
module StartingPlayer {
  import opened Wrappers
  import opened Lists
  import opened Players
  import opened Dice

  /** The players grouped by roll, as the round's `rollMap` holds them after `i` rolls. */
  type RollGroups = map<int, seq<Player>>

  /** `updateRollMap`: `player` joins the end of the group for `roll`, which starts empty. */
  function UpdateRollMap(groups: RollGroups, roll: int, player: Player): (r: RollGroups)
    ensures r.Keys == groups.Keys + {roll}
    ensures forall k :: k in groups && k != roll ==> r[k] == groups[k]
  {
    var group := if roll in groups then groups[roll] else [];
    groups[roll := group + [player]]
  }

  /** The roll map after the first `i` contenders have rolled. */
  function Groups(ps: seq<Player>, draws: seq<nat>, i: nat): RollGroups
    requires i <= |ps| && |ps| <= |draws|
  {
    if i == 0 then map[]
    else UpdateRollMap(Groups(ps, draws, i - 1), Roll(draws[i - 1]), ps[i - 1])
  }

  /** `maxRoll` after the first `i` contenders have rolled; it starts at 0. */
  function MaxRoll(ps: seq<Player>, draws: seq<nat>, i: nat): int
    requires i <= |ps| && |ps| <= |draws|
  {
    if i == 0 then 0
    else
      var prev := MaxRoll(ps, draws, i - 1);
      var roll := Roll(draws[i - 1]);
      if prev >= roll then prev else roll
  }

  /** The players among the first `i` contenders whose roll is `m`, in list order. */
  function WithRoll(ps: seq<Player>, draws: seq<nat>, m: int, i: nat): (r: seq<Player>)
    requires i <= |ps| && |ps| <= |draws|
    ensures |r| <= i
  {
    if i == 0 then []
    else
      var prev := WithRoll(ps, draws, m, i - 1);
      if Roll(draws[i - 1]) == m then prev + [ps[i - 1]] else prev
  }

  /** A round's result: the contenders who rolled the round's highest number. */
  function Round(ps: seq<Player>, draws: seq<nat>): seq<Player>
    requires |ps| <= |draws|
  {
    WithRoll(ps, draws, MaxRoll(ps, draws, |ps|), |ps|)
  }

  /** Each group of the roll map holds exactly the players with that roll, in list order. */
  lemma {:induction false} GroupsMeaning(ps: seq<Player>, draws: seq<nat>, m: int, i: nat)
    requires i <= |ps| && |ps| <= |draws|
    ensures m in Groups(ps, draws, i) <==> WithRoll(ps, draws, m, i) != []
    ensures m in Groups(ps, draws, i) ==> Groups(ps, draws, i)[m] == WithRoll(ps, draws, m, i)
  {
    if i > 0 {
      GroupsMeaning(ps, draws, m, i - 1);
    }
  }

  /** The highest roll is at least every roll so far and, after one roll or more, one of them. */
  lemma {:induction false} MaxRollMeaning(ps: seq<Player>, draws: seq<nat>, i: nat)
    requires i <= |ps| && |ps| <= |draws|
    ensures forall j :: 0 <= j < i ==> Roll(draws[j]) <= MaxRoll(ps, draws, i)
    ensures i > 0 ==> exists j :: 0 <= j < i && Roll(draws[j]) == MaxRoll(ps, draws, i)
  {
    if i > 0 {
      MaxRollMeaning(ps, draws, i - 1);
      if i == 1 {
        assert Roll(draws[0]) == MaxRoll(ps, draws, 1);
      }
    }
  }

  /** The players with roll `m` are players of the list with that roll, in list order. */
  lemma {:induction false} WithRollSound(ps: seq<Player>, draws: seq<nat>, m: int, i: nat)
    requires i <= |ps| && |ps| <= |draws|
    ensures Subsequence(WithRoll(ps, draws, m, i), ps[..i])
    ensures forall p :: p in WithRoll(ps, draws, m, i) ==>
              exists j :: 0 <= j < i && ps[j] == p && Roll(draws[j]) == m
  {
    if i == 0 {
      assert ps[..0] == [];
    } else {
      var prev := WithRoll(ps, draws, m, i - 1);
      WithRollSound(ps, draws, m, i - 1);
      assert ps[..i] == ps[..i - 1] + [ps[i - 1]];
      if Roll(draws[i - 1]) == m {
        SubsequenceSnoc(prev, ps[..i - 1], ps[i - 1]);
      } else {
        SubsequencePrefix(prev, ps[..i - 1], [ps[i - 1]]);
      }
    }
  }

  /** Every player among the first `i` with roll `m` is in the group. */
  lemma {:induction false} WithRollComplete(ps: seq<Player>, draws: seq<nat>, m: int, i: nat)
    requires i <= |ps| && |ps| <= |draws|
    ensures forall j :: 0 <= j < i && Roll(draws[j]) == m ==> ps[j] in WithRoll(ps, draws, m, i)
  {
    if i > 0 {
      WithRollComplete(ps, draws, m, i - 1);
    }
  }

  /**
   * A round keeps, in list order, exactly the contenders whose roll equals
   * the highest roll, and at least one of them.
   */
  lemma RoundExactly(ps: seq<Player>, draws: seq<nat>)
    requires ps != [] && |ps| <= |draws|
    ensures var r := Round(ps, draws);
            && r != [] && Subsequence(r, ps)
            && (forall j :: 0 <= j < |ps| ==> Roll(draws[j]) <= MaxRoll(ps, draws, |ps|))
            && (forall j :: 0 <= j < |ps| && Roll(draws[j]) == MaxRoll(ps, draws, |ps|) ==> ps[j] in r)
            && forall p :: p in r ==>
                 exists j :: 0 <= j < |ps| && ps[j] == p && Roll(draws[j]) == MaxRoll(ps, draws, |ps|)
  {
    var m := MaxRoll(ps, draws, |ps|);
    MaxRollMeaning(ps, draws, |ps|);
    WithRollSound(ps, draws, m, |ps|);
    WithRollComplete(ps, draws, m, |ps|);
    assert ps[..|ps|] == ps;
    var j :| 0 <= j < |ps| && Roll(draws[j]) == m;
    assert ps[j] in Round(ps, draws);
  }

  /**
   * `runDiceRound`: each contender rolls in turn, joining the group for that
   * roll, and the group of the highest roll is returned. The highest roll
   * starts at 0, below every face, so it ends as a roll that was made.
   * `handleTieOfDice` only announces a tie and returns its input.
   */
  method RunDiceRound(contenders: seq<Player>, draws: seq<nat>) returns (winners: seq<Player>)
    requires contenders != [] && |contenders| <= |draws|
    ensures winners == Round(contenders, draws)
  {
    var rollMap: RollGroups := map[];
    var maxRoll := 0;
    for i := 0 to |contenders|
      invariant rollMap == Groups(contenders, draws, i)
      invariant maxRoll == MaxRoll(contenders, draws, i)
    {
      var roll := Roll(draws[i]);
      rollMap := UpdateRollMap(rollMap, roll, contenders[i]);
      maxRoll := if maxRoll >= roll then maxRoll else roll;
    }
    RoundExactly(contenders, draws);
    GroupsMeaning(contenders, draws, maxRoll, |contenders|);
    winners := rollMap[maxRoll];
  }

  /** The starting player the rounds decide, or none when the supplied rounds run out first. */
  function Decide(contenders: seq<Player>, rounds: seq<seq<nat>>): Option<Player>
    requires contenders != []
    decreases |rounds|
  {
    if |contenders| <= 1 then Some(contenders[0])
    else if rounds == [] || |rounds[0]| < |contenders| then None
    else
      RoundExactly(contenders, rounds[0]);
      Decide(Round(contenders, rounds[0]), rounds[1..])
  }

  /** The decided player is one of the contenders; a single contender is decided without a roll. */
  lemma {:induction false} DecideSound(contenders: seq<Player>, rounds: seq<seq<nat>>)
    requires contenders != []
    ensures Decide(contenders, rounds).Some? ==> Decide(contenders, rounds).value in contenders
    ensures |contenders| == 1 ==> Decide(contenders, rounds) == Some(contenders[0])
    decreases |rounds|
  {
    if |contenders| > 1 && rounds != [] && |rounds[0]| >= |contenders| {
      var next := Round(contenders, rounds[0]);
      RoundExactly(contenders, rounds[0]);
      DecideSound(next, rounds[1..]);
      SubsequenceMembers(next, contenders);
    }
  }

  /** A round never adds contenders. */
  lemma RoundShrinks(ps: seq<Player>, draws: seq<nat>)
    requires ps != [] && |ps| <= |draws|
    ensures 0 < |Round(ps, draws)| <= |ps|
  {
    RoundExactly(ps, draws);
    SubsequenceMembers(Round(ps, draws), ps);
  }

  /**
   * `decideStartingPlayer`: rounds run on a copy of the list while more
   * than one contender is left; the last one starts. The caller's list is
   * a value here, so it cannot change.
   */
  method DecideStartingPlayer(players: seq<Player>, rounds: seq<seq<nat>>) returns (starter: Option<Player>)
    requires players != []
    ensures starter == Decide(players, rounds)
  {
    var contenders := players;
    var k := 0;
    while |contenders| > 1
      invariant 0 <= k <= |rounds| && contenders != []
      invariant Decide(contenders, rounds[k..]) == Decide(players, rounds)
      decreases |rounds| - k
    {
      if k == |rounds| || |rounds[k]| < |contenders| {
        return None;
      }
      assert rounds[k..][1..] == rounds[k + 1..];
      RoundShrinks(contenders, rounds[k]);
      contenders := RunDiceRound(contenders, rounds[k]);
      k := k + 1;
    }
    starter := Some(contenders[0]);
  }
}
