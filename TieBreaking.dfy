/**
 * The dice tie-breaker of src/game/gameplay/managers/DiceTieBreaker.java:
 * each tied player rolls once, the tied list is sorted by roll from high
 * to low with a stable sort, and its first player wins. Equal rolls are
 * not rolled again; those players keep their earlier order.
 */
module TieBreaking {
  import opened Lists
  import opened Sorting
  import opened Players
  import opened Dice

  /** Each player's roll. */
  type Rolls = map<Player, int>

  /** The roll map after each player of `ps`, in order, rolls the matching draw (`put` replaces an earlier roll). */
  function RollMap(ps: seq<Player>, draws: seq<nat>): (r: Rolls)
    requires |draws| == |ps|
    ensures Keyed(ps, r)
  {
    if ps == [] then map[]
    else
      var k := |ps| - 1;
      RollMap(ps[..k], draws[..k])[ps[k] := Roll(draws[k])]
  }

  /** Every player rolls, nobody else has a roll, and every roll is a die face. */
  lemma {:induction false} RollMapKeys(ps: seq<Player>, draws: seq<nat>)
    requires |draws| == |ps|
    ensures forall p :: p in RollMap(ps, draws) <==> p in ps
    ensures forall p :: p in RollMap(ps, draws) ==> 1 <= RollMap(ps, draws)[p] <= 6
  {
    if ps != [] {
      var k := |ps| - 1;
      RollMapKeys(ps[..k], draws[..k]);
      InInitOrLast(ps, ps[k]);
      forall p ensures p in ps <==> p in ps[..k] || p == ps[k] {
        InInitOrLast(ps, p);
      }
    }
  }

  /** When no player is listed twice, each player's roll is the one drawn for it. */
  lemma {:induction false} RollMapExact(ps: seq<Player>, draws: seq<nat>)
    requires |draws| == |ps| && NoDup(ps)
    ensures forall i :: 0 <= i < |ps| ==> ps[i] in RollMap(ps, draws) && RollMap(ps, draws)[ps[i]] == Roll(draws[i])
  {
    if ps != [] {
      var k := |ps| - 1;
      NoDupInit(ps);
      RollMapExact(ps[..k], draws[..k]);
      forall i | 0 <= i < k
        ensures ps[i] == ps[..k][i] && draws[i] == draws[..k][i]
      {
      }
    }
  }

  /** `rollDice`: one roll per player, put into the map in list order. */
  method RollDice(players: seq<Player>, draws: seq<nat>) returns (results: Rolls)
    requires |draws| == |players|
    ensures results == RollMap(players, draws)
  {
    results := map[];
    for i := 0 to |players|
      invariant results == RollMap(players[..i], draws[..i])
    {
      var roll := Roll(draws[i]);
      assert players[..i + 1][..i] == players[..i] && draws[..i + 1][..i] == draws[..i];
      results := results[players[i] := roll];
    }
    assert players[..|players|] == players && draws[..|draws|] == draws;
  }

  /** Roll `a` sorts before roll `b`: higher rolls first. */
  predicate RollAbove(a: int, b: int) {
    a > b
  }

  lemma RollOrder()
    ensures StrictOrder(RollAbove)
  {
  }

  /** `sortPlayersByRolls`: `Collections.sort` by roll, descending. */
  method SortPlayersByRolls(players: seq<Player>, rolls: Rolls) returns (sorted: seq<Player>)
    requires Keyed(players, rolls)
    ensures sorted == Sort(players, rolls, RollAbove)
  {
    sorted := InsertionSort(players, rolls, RollAbove);
  }

  /**
   * The dice order is a rearrangement of the players, from the highest roll
   * to the lowest, in which players with equal rolls keep their order.
   */
  lemma DiceOrder(ps: seq<Player>, rolls: Rolls)
    requires Keyed(ps, rolls)
    ensures multiset(Sort(ps, rolls, RollAbove)) == multiset(ps)
    ensures var s := Sort(ps, rolls, RollAbove);
            forall i, j :: 0 <= i < j < |s| ==> rolls[s[i]] >= rolls[s[j]]
    ensures forall k :: WithKey(Sort(ps, rolls, RollAbove), rolls, k) == WithKey(ps, rolls, k)
  {
    SortPermutes(ps, rolls, RollAbove);
    RollOrder();
    SortSorted(ps, rolls, RollAbove);
    forall k ensures WithKey(Sort(ps, rolls, RollAbove), rolls, k) == WithKey(ps, rolls, k) {
      SortStable(ps, rolls, RollAbove, k);
    }
  }

  /**
   * `resolveTie`: the tied players roll, the list is put in dice order and
   * its first player wins. The reordered list is returned as `sorted`,
   * since the source sorts the caller's list in place. An empty list has
   * no first player.
   */
  method ResolveTie(tied: seq<Player>, draws: seq<nat>) returns (winner: Player, sorted: seq<Player>)
    requires tied != [] && |draws| == |tied|
    ensures sorted == Sort(tied, RollMap(tied, draws), RollAbove)
    ensures winner == sorted[0]
  {
    var rolls := RollDice(tied, draws);
    RollMapKeys(tied, draws);
    sorted := SortPlayersByRolls(tied, rolls);
    winner := sorted[0];
  }

  /** The winner of the tie-breaker is a tied player whose roll no other tied player beats. */
  lemma TieWinner(tied: seq<Player>, draws: seq<nat>)
    requires tied != [] && |draws| == |tied|
    ensures var rolls, s := RollMap(tied, draws), Sort(tied, RollMap(tied, draws), RollAbove);
            && Keyed(tied, rolls) && s != [] && s[0] in tied
            && forall p :: p in tied ==> rolls[s[0]] >= rolls[p]
  {
    var rolls := RollMap(tied, draws);
    RollMapKeys(tied, draws);
    var s := Sort(tied, rolls, RollAbove);
    DiceOrder(tied, rolls);
    assert s[0] in multiset(s);
    forall p | p in tied
      ensures rolls[s[0]] >= rolls[p]
    {
      assert p in multiset(s);
      var j :| 0 <= j < |s| && s[j] == p;
    }
  }
}
