/**
 * The end-of-game test made after every turn: the deck is empty, or some
 * player holds an open card of every colour.
 */
module EndGame {
  import opened Constants
  import opened Cards
  import opened Decks
  import opened Players
  import opened Lists

  /** The open cards hold TOTAL_COLORS lists and none of them is empty. */
  predicate HasAllColors(m: OpenMap) {
    |m| == TOTAL_COLORS && forall c :: c in m ==> m[c] != []
  }

  /** Having all colours means having at least one open card of every colour. */
  lemma HasAllColorsIff(m: OpenMap)
    ensures HasAllColors(m) <==> forall c: Color :: CardsOf(m, c) != []
  {
    FullKeySet(m);
    if HasAllColors(m) {
      forall c: Color ensures CardsOf(m, c) != [] {
        assert c in m;
      }
    }
    if forall c: Color :: CardsOf(m, c) != [] {
      forall c: Color ensures c in m {
        assert CardsOf(m, c) != [];
      }
      forall c | c in m ensures m[c] != [] {
        assert CardsOf(m, c) != [];
      }
    }
  }

  /** Some card of `cs` has colour `c`. */
  predicate Shows(cs: seq<Card>, c: Color) {
    exists i :: 0 <= i < |cs| && cs[i].color == c
  }

  /**
   * For open cards grouped from nothing, having all colours means that the
   * grouped cards show every colour.
   */
  lemma CollectedIff(cs: seq<Card>)
    ensures HasAllColors(Grouped(map[], cs)) <==>
            forall c: Color :: Shows(cs, c)
  {
    var m := Grouped(map[], cs);
    HasAllColorsIff(m);
    forall c: Color
      ensures CardsOf(m, c) != [] <==> Shows(cs, c)
    {
      GroupedAt(map[], cs, c);
      OfColorMembers(cs, c);
      assert CardsOf(m, c) == OfColor(cs, c);
      if CardsOf(m, c) != [] {
        assert OfColor(cs, c)[0] in cs;
      }
    }
  }

  class EndGameChecker {
    const players: seq<Player>
    const deck: Deck

    constructor (players: seq<Player>, deck: Deck)
      ensures this.players == players && this.deck == deck
    {
      this.players := players;
      this.deck := deck;
    }

    /** The game ends when the deck is empty or a player has every colour. */
    method CheckEndGame() returns (end: bool)
      ensures end <==> deck.cards == [] ||
                       exists i :: 0 <= i < |players| && HasAllColors(players[i].openCards)
    {
      if IsDeckEmpty() {
        return true;
      }
      end := CheckAllColorsCollected();
    }

    /** The deck has no card left, asked both by size and by emptiness. */
    predicate IsDeckEmpty()
      reads deck`cards
      ensures IsDeckEmpty() <==> deck.cards == []
    {
      deck.Size() == 0 || deck.IsEmpty()
    }

    /** Scans the players in order and stops at the first one with every colour. */
    method CheckAllColorsCollected() returns (found: bool)
      ensures found <==> exists i :: 0 <= i < |players| && HasAllColors(players[i].openCards)
    {
      for k := 0 to |players|
        invariant forall i :: 0 <= i < k ==> !HasAllColors(players[i].openCards)
      {
        var all := HasAllColorsOf(players[k]);
        if all {
          return true;
        }
      }
      return false;
    }

    /**
     * A player has every colour when the open cards hold TOTAL_COLORS
     * lists and each one is non-empty. With that many lists every colour is
     * a key, so the lists are visited colour by colour.
     */
    method HasAllColorsOf(player: Player) returns (all: bool)
      ensures all <==> HasAllColors(player.openCards)
    {
      var openCards := player.openCards;
      if |openCards| != TOTAL_COLORS {
        return false;
      }
      FullKeySet(openCards);
      ColorsComplete();
      for k := 0 to |COLORS|
        invariant forall j :: 0 <= j < k ==> openCards[COLORS[j]] != []
      {
        if openCards[COLORS[k]] == [] {
          return false;
        }
      }
      forall c | c in openCards ensures openCards[c] != [] {
        var j := FirstIndex(COLORS, c);
      }
      return true;
    }
  }
}
