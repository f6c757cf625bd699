/**
 * The turn order of src/game/gameplay/managers/PlayerManager.java. Making a
 * player the starting player rotates the list so that player comes first;
 * the players after it follow, then the players that were before it.
 */
module PlayerManagement {
  import opened Lists
  import opened Players

  /** `s` rotated left by `k`: `s[k..]` followed by `s[..k]`. */
  function Rotate<T>(s: seq<T>, k: nat): seq<T>
    requires k <= |s|
  {
    s[k..] + s[..k]
  }

  /** The list after `rearrangePlayers(x)`: rotated to the first `x`, or unchanged when `x` is absent. */
  function Rearranged<T(==)>(s: seq<T>, x: T): seq<T> {
    if x in s then Rotate(s, FirstIndex(s, x)) else s
  }

  /** A rotation keeps the length and the players. */
  lemma RotatePermutes<T>(s: seq<T>, k: nat)
    requires k <= |s|
    ensures |Rotate(s, k)| == |s|
    ensures multiset(Rotate(s, k)) == multiset(s)
  {
    assert s == s[..k] + s[k..];
  }

  /** The element at position `i` moves to position `(i - k) mod n`. */
  lemma RotateAt<T>(s: seq<T>, k: nat, i: nat)
    requires k <= |s| && i < |s|
    ensures 0 <= (i - k) % |s| < |Rotate(s, k)|
    ensures Rotate(s, k)[(i - k) % |s|] == s[i]
  {
    var n := |s|;
    if i >= k {
      ModInRange(i - k, n);
    } else {
      ModNegative(i - k, n);
    }
  }

  /** Rotating back by the rest of the length undoes a rotation. */
  lemma RotateInverse<T>(s: seq<T>, k: nat)
    requires k <= |s|
    ensures Rotate(Rotate(s, k), |s| - k) == s
  {
    var r := Rotate(s, k);
    assert r[|s| - k..] == s[..k];
    assert r[..|s| - k] == s[k..];
    assert s == s[..k] + s[k..];
  }

  /** Numbers below the modulus are their own remainder. */
  lemma ModInRange(x: int, n: int)
    requires 0 <= x < n
    ensures x % n == x
  {
  }

  /** A number less than zero by at most the modulus has that number plus the modulus as remainder. */
  lemma ModNegative(x: int, n: int)
    requires -n <= x < 0
    ensures x % n == x + n
  {
  }

  /** The given player comes first, and the list is a rotation of the old one. */
  lemma RearrangedFirst<T>(s: seq<T>, x: T)
    requires x in s
    ensures var r := Rearranged(s, x);
            && r != [] && r[0] == x
            && multiset(r) == multiset(s)
  {
    RotatePermutes(s, FirstIndex(s, x));
  }

  /** Rearranging to the player already first changes nothing. */
  lemma RearrangedHead<T>(s: seq<T>)
    requires s != []
    ensures Rearranged(s, s[0]) == s
  {
    assert FirstIndex(s, s[0]) == 0;
    assert s[0..] == s && s[..0] == [];
  }

  /** `PlayerManager`: owns the turn order. */
  class PlayerManager {
    var players: seq<Player>

    constructor (players: seq<Player>)
      ensures this.players == players
    {
      this.players := players;
    }

    /**
     * `rearrangePlayers`: nothing happens when the player is not in the
     * list; otherwise the list is cleared and refilled with the players from
     * its first position on, then the players before it.
     */
    method RearrangePlayers(startingPlayer: Player)
      modifies this`players
      ensures players == Rearranged(old(players), startingPlayer)
    {
      var index := IndexOf(players, startingPlayer);
      if index == -1 {
        return;
      }
      var rearranged: seq<Player> := [];
      rearranged := rearranged + players[index..];
      rearranged := rearranged + players[..index];
      players := rearranged;
    }
  }
}
