/**
 * The parade: the row of cards on the table. A played card is appended at
 * the end; the cards it "takes" are searched for among the cards before the
 * last `value + 1` ones.
 */
module Parades {
  import opened Constants
  import opened Wrappers
  import opened Cards
  import opened Decks
  import opened Lists

  /**
   * `Math.max(size - value - 1, 0)`: how many leading cards are candidates
   * when the played card has value `value` and the parade holds `size` cards.
   */
  function ToCount(size: nat, value: int): (n: nat)
    ensures n == 0 <==> size <= value + 1
    ensures value >= -1 ==> n <= size
    ensures n > 0 ==> n + value + 1 == size
  {
    if size - value - 1 > 0 then size - value - 1 else 0
  }

  /** A candidate is taken when it has the played colour or a value no greater than the played one. */
  predicate Takes(played: Card, card: Card)
    reads played`value, card`value
  {
    card.color == played.color || played.value >= card.value
  }

  /** The cards of `cs` that `played` takes, in the order of `cs`. */
  function TakenFrom(cs: seq<Card>, played: Card): (r: seq<Card>)
    reads cs`value, played`value
    ensures forall i :: 0 <= i < |r| ==> r[i] in cs && Takes(played, r[i])
    ensures forall i :: 0 <= i < |cs| && Takes(played, cs[i]) ==> cs[i] in r
  {
    if cs == [] then []
    else (if Takes(played, cs[0]) then [cs[0]] else []) + TakenFrom(cs[1..], played)
  }

  lemma {:induction false} TakenFromSnoc(cs: seq<Card>, x: Card, played: Card)
    ensures TakenFrom(cs + [x], played)
         == TakenFrom(cs, played) + (if Takes(played, x) then [x] else [])
  {
    if cs == [] {
      assert [] + [x] == [x];
    } else {
      assert (cs + [x])[1..] == cs[1..] + [x];
      TakenFromSnoc(cs[1..], x, played);
    }
  }

  lemma {:induction false} TakenFromSubsequence(cs: seq<Card>, played: Card)
    ensures Subsequence(TakenFrom(cs, played), cs)
  {
    if cs != [] {
      TakenFromSubsequence(cs[1..], played);
      var r := TakenFrom(cs, played);
      if Takes(played, cs[0]) {
        assert r[0] == cs[0] && r[1..] == TakenFrom(cs[1..], played);
      } else {
        assert r == TakenFrom(cs[1..], played);
      }
    }
  }

  /** The cards `played` takes out of `cards`: `getEligibleCards` as a function of the parade. */
  function Eligible(cards: seq<Card>, played: Card): seq<Card>
    requires played.value >= -1
    reads cards`value, played`value
  {
    TakenFrom(cards[..ToCount(|cards|, played.value)], played)
  }

  /**
   * A card is eligible exactly when it sits before the last `value + 1`
   * cards and is taken by the played card.
   */
  lemma EligibleMembers(cards: seq<Card>, played: Card)
    requires played.value >= -1
    ensures forall x :: x in Eligible(cards, played) ==>
              x in cards[..ToCount(|cards|, played.value)] && Takes(played, x)
    ensures forall i :: 0 <= i < ToCount(|cards|, played.value) && Takes(played, cards[i]) ==>
              cards[i] in Eligible(cards, played)
  {
    var n := ToCount(|cards|, played.value);
    assert forall i :: 0 <= i < n ==> cards[..n][i] == cards[i];
  }

  /** The eligible cards keep the parade's order. */
  lemma EligibleSubsequence(cards: seq<Card>, played: Card)
    requires played.value >= -1
    ensures Subsequence(Eligible(cards, played), cards)
  {
    var n := ToCount(|cards|, played.value);
    TakenFromSubsequence(cards[..n], played);
    SubsequencePrefix(Eligible(cards, played), cards[..n], cards[n..]);
    assert cards[..n] + cards[n..] == cards;
  }

  /**
   * When the parade holds no card twice, none of its last `value + 1` cards,
   * the played card among them, is ever eligible.
   */
  lemma EligibleSparesTail(cards: seq<Card>, played: Card)
    requires played.value >= -1 && NoDup(cards)
    ensures forall i :: ToCount(|cards|, played.value) <= i < |cards| ==>
              cards[i] !in Eligible(cards, played)
  {
    EligibleMembers(cards, played);
  }

  /** With no more than `value + 1` cards in the parade, nothing is eligible. */
  lemma ShortParadeTakesNothing(cards: seq<Card>, played: Card)
    requires played.value >= -1 && |cards| <= played.value + 1
    ensures Eligible(cards, played) == []
  {
    assert cards[..ToCount(|cards|, played.value)] == [];
  }

  class Parade {
    var cards: seq<Card>
    const deck: Deck

    constructor (deck: Deck)
      ensures this.deck == deck && cards == []
    {
      this.deck := deck;
      cards := [];
    }

    /**
     * Moves INITIAL_CARDS_OF_PARADE cards from the deck's tail onto the
     * parade, last deck card first. When the deck runs out, the cards moved
     * so far stay moved and the result is false (the source throws
     * IllegalStateException).
     */
    method InitializeParade() returns (ok: bool)
      modifies this`cards, deck`cards
      ensures var n := |old(deck.cards)|;
              var m := if n < INITIAL_CARDS_OF_PARADE then n else INITIAL_CARDS_OF_PARADE;
              && deck.cards == old(deck.cards)[..n - m]
              && cards == old(cards) + Reversed(old(deck.cards)[n - m..])
              && (ok <==> n >= INITIAL_CARDS_OF_PARADE)
    {
      ghost var n := |deck.cards|;
      for i := 0 to INITIAL_CARDS_OF_PARADE
        invariant i <= n
        invariant deck.cards == old(deck.cards)[..n - i]
        invariant cards == old(cards) + Reversed(old(deck.cards)[n - i..])
      {
        if deck.IsEmpty() {
          return false;
        }
        var card := deck.RemoveCardFromDeck();
        assert old(deck.cards)[n - (i + 1)..][1..] == old(deck.cards)[n - i..];
        cards := cards + [card];
      }
      return true;
    }

    /** Appends `card`; the earlier cards keep their positions. */
    method AddCard(card: Card)
      modifies this`cards
      ensures cards == old(cards) + [card]
    {
      cards := cards + [card];
    }

    predicate IsEmpty()
      reads this`cards
      ensures IsEmpty() <==> |cards| == 0
    {
      cards == []
    }

    /** The last card of the parade; None where the source throws on an empty parade. */
    function GetLastPlayedCard(): (r: Option<Card>)
      reads this`cards
      ensures r.None? <==> cards == []
      ensures r.Some? ==> r.value == cards[|cards| - 1] && r.value in cards
    {
      if cards == [] then None else Some(cards[|cards| - 1])
    }

    /**
     * The cards `played` takes: a scan of the first ToCount positions. A
     * played value below -1 would send the scan past the end of the list.
     */
    method GetEligibleCards(played: Card) returns (eligible: seq<Card>)
      requires played.value >= -1
      ensures eligible == Eligible(cards, played)
    {
      var toCount := ToCount(|cards|, played.value);
      eligible := [];
      for i := 0 to toCount
        invariant eligible == TakenFrom(cards[..i], played)
      {
        var card := cards[i];
        TakenFromSnoc(cards[..i], card, played);
        assert cards[..i + 1] == cards[..i] + [card];
        if card.color == played.color || played.value >= card.value {
          eligible := eligible + [card];
        }
      }
    }

    /** `removeAll`: drops every card of `toRemove`, keeping the others in order. */
    method RemoveCards(toRemove: seq<Card>)
      modifies this`cards
      ensures cards == Without(old(cards), toRemove)
    {
      cards := Without(cards, toRemove);
    }
  }
}
