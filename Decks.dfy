/** The draw pile: built in colour-major order, shuffled, and drawn from its tail. */
module Decks {
  import opened Constants
  import opened Cards
  import opened Lists

  /** Size of a new deck: one card per colour and value. */
  const DECK_SIZE: nat := TOTAL_COLORS * VALUES_PER_COLOR

  /** Colour of the card at position `i` of a new deck. */
  function StandardColor(i: nat): Color
    requires i < DECK_SIZE
  {
    COLORS[i / VALUES_PER_COLOR]
  }

  /** Value of the card at position `i` of a new deck. */
  function StandardValue(i: nat): int {
    MIN_VALUE_OF_CARD + i % VALUES_PER_COLOR
  }

  /**
   * The layout of a new deck holds no (colour, value) pair twice, and all its
   * values lie in MIN_VALUE_OF_CARD..MAX_VALUE_OF_CARD.
   */
  lemma StandardDeckPairs()
    ensures forall i, j :: 0 <= i < j < DECK_SIZE ==>
              StandardColor(i) != StandardColor(j) || StandardValue(i) != StandardValue(j)
    ensures forall i :: 0 <= i < DECK_SIZE ==> MIN_VALUE_OF_CARD <= StandardValue(i) <= MAX_VALUE_OF_CARD
  {
    ColorsComplete();
    forall i, j | 0 <= i < j < DECK_SIZE && StandardColor(i) == StandardColor(j)
      ensures StandardValue(i) != StandardValue(j)
    {
      assert i / VALUES_PER_COLOR == j / VALUES_PER_COLOR;
    }
  }

  /** Where a new deck holds the card of colour `c` and value `v`: every pair is present. */
  function PositionOf(c: Color, v: int): (i: nat)
    requires MIN_VALUE_OF_CARD <= v <= MAX_VALUE_OF_CARD
    ensures i < DECK_SIZE && StandardColor(i) == c && StandardValue(i) == v
  {
    ColorsComplete();
    var k := FirstIndex(COLORS, c);
    var i := k * VALUES_PER_COLOR + (v - MIN_VALUE_OF_CARD);
    assert i / VALUES_PER_COLOR == k && i % VALUES_PER_COLOR == v - MIN_VALUE_OF_CARD;
    i
  }

  class Deck {
    var cards: seq<Card>

    /** A new deck: for each colour of COLORS, the values 0 to 10 in increasing order. */
    constructor ()
      ensures |cards| == DECK_SIZE
      ensures forall i :: 0 <= i < |cards| ==>
                cards[i].color == StandardColor(i) && cards[i].value == StandardValue(i)
      ensures NoDup(cards)
      ensures forall x :: x in cards ==> fresh(x)
    {
      var cs: seq<Card> := [];
      for k := 0 to |COLORS|
        invariant |cs| == k * VALUES_PER_COLOR
        invariant forall i :: 0 <= i < |cs| ==>
                    cs[i].color == COLORS[i / VALUES_PER_COLOR] && cs[i].value == StandardValue(i)
        invariant NoDup(cs)
        invariant forall x :: x in cs ==> fresh(x)
      {
        for v := MIN_VALUE_OF_CARD to MAX_VALUE_OF_CARD + 1
          invariant |cs| == k * VALUES_PER_COLOR + v
          invariant forall i :: 0 <= i < |cs| ==>
                      cs[i].color == COLORS[i / VALUES_PER_COLOR] && cs[i].value == StandardValue(i)
          invariant NoDup(cs)
          invariant forall x :: x in cs ==> fresh(x)
        {
          var card := new Card(COLORS[k], v);
          assert |cs| / VALUES_PER_COLOR == k && |cs| % VALUES_PER_COLOR == v;
          cs := cs + [card];
        }
      }
      cards := cs;
    }

    function Size(): (n: nat)
      reads this`cards
      ensures n == |cards|
    {
      |cards|
    }

    predicate IsEmpty()
      reads this`cards
      ensures IsEmpty() <==> Size() == 0
    {
      cards == []
    }

    /**
     * `Collections.shuffle`: from the last position down to the second, the
     * card at position i - 1 is swapped with one at a position below i. The
     * random position for step `k` is `draws[k] % i`.
     */
    method Shuffle(draws: seq<nat>)
      requires |cards| <= |draws| + 1
      modifies this`cards
      ensures multiset(cards) == multiset(old(cards))
      ensures |cards| == |old(cards)|
    {
      var i := |cards|;
      while i > 1
        invariant 0 <= i <= |cards|
        invariant |cards| == |old(cards)|
        invariant multiset(cards) == multiset(old(cards))
      {
        var j := draws[|cards| - i] % i;
        var a, b := cards[i - 1], cards[j];
        cards := cards[i - 1 := b][j := a];
        i := i - 1;
      }
    }

    /** Takes the last card, or returns null and changes nothing when the deck is empty. */
    method RemoveCardFromDeck() returns (card: Card?)
      modifies this`cards
      ensures old(cards) == [] ==> card == null && cards == old(cards)
      ensures old(cards) != [] ==>
                card == old(cards)[|old(cards)| - 1] && cards == old(cards)[..|old(cards)| - 1]
    {
      if cards == [] {
        card := null;
      } else {
        card := cards[|cards| - 1];
        cards := cards[..|cards| - 1];
      }
    }
  }
}
