/**
 * A player: a hidden hand of closed cards, open cards grouped by colour, and
 * a score. Human and computer players share this class; `human` tells them
 * apart, and the moves each kind makes are separate methods whose choices
 * (the typed selection, the random index) are parameters.
 */
module Players {
  import opened Constants
  import opened Wrappers
  import opened Cards
  import opened Decks
  import opened Parades
  import opened Lists

  /** Open cards: the list collected for each colour. */
  type OpenMap = map<Color, seq<Card>>

  /** The open list of colour `c`, empty when there is none (`getOrDefault`). */
  function CardsOf(m: OpenMap, c: Color): seq<Card> {
    if c in m then m[c] else []
  }

  /** `computeIfAbsent(card.getColor(), ...).add(card)`. */
  function AddOpen(m: OpenMap, card: Card): (r: OpenMap)
    ensures r.Keys == m.Keys + {card.color}
    ensures CardsOf(r, card.color) == CardsOf(m, card.color) + [card]
    ensures forall c :: c != card.color ==> CardsOf(r, c) == CardsOf(m, c)
  {
    m[card.color := CardsOf(m, card.color) + [card]]
  }

  /** The open cards after each card of `cs`, in order, joins the list of its colour. */
  function Grouped(m: OpenMap, cs: seq<Card>): OpenMap {
    if cs == [] then m else AddOpen(Grouped(m, cs[..|cs| - 1]), cs[|cs| - 1])
  }

  /** Grouping appends to each colour's list exactly the cards of that colour, in order. */
  lemma {:induction false} GroupedAt(m: OpenMap, cs: seq<Card>, c: Color)
    ensures CardsOf(Grouped(m, cs), c) == CardsOf(m, c) + OfColor(cs, c)
  {
    if cs != [] {
      var init, last := cs[..|cs| - 1], cs[|cs| - 1];
      var tail := if last.color == c then [last] else [];
      GroupedAt(m, init, c);
      GroupedStep(m, cs, c);
      assert OfColor(cs, c) == OfColor(init, c) + tail;
      assert (CardsOf(m, c) + OfColor(init, c)) + tail == CardsOf(m, c) + (OfColor(init, c) + tail);
    }
  }

  /** Grouping one more card appends it to the list of its colour only. */
  lemma GroupedStep(m: OpenMap, cs: seq<Card>, c: Color)
    requires cs != []
    ensures var last := cs[|cs| - 1];
            CardsOf(Grouped(m, cs), c)
              == CardsOf(Grouped(m, cs[..|cs| - 1]), c) + if last.color == c then [last] else []
  {
  }

  /** Grouping adds a key for each colour among the new cards and for no other. */
  lemma {:induction false} GroupedKeys(m: OpenMap, cs: seq<Card>)
    ensures Grouped(m, cs).Keys == m.Keys + set i | 0 <= i < |cs| :: cs[i].color
  {
    if cs != [] {
      var init := cs[..|cs| - 1];
      GroupedKeys(m, init);
      assert (set i | 0 <= i < |cs| :: cs[i].color)
          == (set i | 0 <= i < |init| :: init[i].color) + {cs[|cs| - 1].color};
    }
  }

  /** Every card stored under colour `c` has colour `c`. */
  ghost predicate WellGrouped(m: OpenMap) {
    forall c, i :: c in m && 0 <= i < |m[c]| ==> m[c][i].color == c
  }

  lemma GroupedWellGrouped(m: OpenMap, cs: seq<Card>)
    requires WellGrouped(m)
    ensures WellGrouped(Grouped(m, cs))
  {
    forall c | c in Grouped(m, cs)
      ensures forall i :: 0 <= i < |Grouped(m, cs)[c]| ==> Grouped(m, cs)[c][i].color == c
    {
      GroupedAt(m, cs, c);
      OfColorMembers(cs, c);
    }
  }

  /** The open lists of the colours `cs`, one after the other. */
  function Flatten(m: OpenMap, cs: seq<Color>): seq<Card> {
    if cs == [] then [] else Flatten(m, cs[..|cs| - 1]) + CardsOf(m, cs[|cs| - 1])
  }

  /** All open cards, colour by colour in the order of COLORS. */
  function OpenList(m: OpenMap): seq<Card> {
    Flatten(m, COLORS)
  }

  /** Sum of the sizes of the open lists of the colours `cs`. */
  function SizeSum(m: OpenMap, cs: seq<Color>): (n: nat)
    ensures n == |Flatten(m, cs)|
  {
    if cs == [] then 0 else SizeSum(m, cs[..|cs| - 1]) + |CardsOf(m, cs[|cs| - 1])|
  }

  lemma {:induction false} FlattenAddOpen(m: OpenMap, x: Card, cs: seq<Color>)
    requires NoDup(cs)
    ensures multiset(Flatten(AddOpen(m, x), cs))
         == multiset(Flatten(m, cs)) + (if x.color in cs then multiset{x} else multiset{})
  {
    if cs != [] {
      var init, last := cs[..|cs| - 1], cs[|cs| - 1];
      NoDupInit(cs);
      FlattenAddOpen(m, x, init);
      FlattenAddOpenLast(m, x, cs);
    }
  }

  /** The step of FlattenAddOpen for the last colour of `cs`. */
  lemma FlattenAddOpenLast(m: OpenMap, x: Card, cs: seq<Color>)
    requires cs != [] && cs[|cs| - 1] !in cs[..|cs| - 1]
    requires var init := cs[..|cs| - 1];
             multiset(Flatten(AddOpen(m, x), init))
             == multiset(Flatten(m, init)) + (if x.color in init then multiset{x} else multiset{})
    ensures multiset(Flatten(AddOpen(m, x), cs))
         == multiset(Flatten(m, cs)) + (if x.color in cs then multiset{x} else multiset{})
  {
    var init, last := cs[..|cs| - 1], cs[|cs| - 1];
    var before, rest := Flatten(m, init), CardsOf(m, last);
    var ex := if x.color in init then multiset{x} else multiset{};
    var e := if x.color == last then [x] else [];
    FlattenAddOpenStep(m, x, cs);
    assert ex + multiset(e) == if x.color in cs then multiset{x} else multiset{} by {
      InInitOrLast(cs, x.color);
    }
    MultisetRegroup(Flatten(AddOpen(m, x), init), before, rest, e, ex);
  }

  /** One more colour of the flattened list gains `x` exactly when it is the colour of `x`. */
  lemma FlattenAddOpenStep(m: OpenMap, x: Card, cs: seq<Color>)
    requires cs != []
    ensures var init, last := cs[..|cs| - 1], cs[|cs| - 1];
            && Flatten(AddOpen(m, x), cs)
               == Flatten(AddOpen(m, x), init) + (CardsOf(m, last) + if x.color == last then [x] else [])
            && Flatten(m, cs) == Flatten(m, init) + CardsOf(m, last)
  {
  }

  /** COLORS has no repeats and lists `c`. */
  lemma ColorListed(c: Color)
    ensures NoDup(COLORS) && c in COLORS
  {
    ColorsComplete();
  }

  /** Grouping over a list of distinct colours that holds every new card's colour loses and invents no card. */
  lemma {:induction false} GroupedFlatten(m: OpenMap, cs: seq<Card>, colors: seq<Color>)
    requires NoDup(colors)
    requires forall i :: 0 <= i < |cs| ==> cs[i].color in colors
    ensures multiset(Flatten(Grouped(m, cs), colors)) == multiset(Flatten(m, colors)) + multiset(cs)
  {
    if cs == [] {
      assert Grouped(m, cs) == m;
    } else {
      var init, last := cs[..|cs| - 1], cs[|cs| - 1];
      assert multiset(cs) == multiset(init) + multiset{last} by {
        assert cs == init + [last];
      }
      GroupedFlatten(m, init, colors);
      FlattenAddOpen(Grouped(m, init), last, colors);
      assert Grouped(m, cs) == AddOpen(Grouped(m, init), last);
    }
  }

  /** Grouping loses and invents no card: the open cards gain exactly `cs`. */
  lemma GroupedOpenList(m: OpenMap, cs: seq<Card>)
    ensures multiset(OpenList(Grouped(m, cs))) == multiset(OpenList(m)) + multiset(cs)
    ensures |OpenList(Grouped(m, cs))| == |OpenList(m)| + |cs|
  {
    ColorsComplete();
    GroupedFlatten(m, cs, COLORS);
    assert |multiset(OpenList(Grouped(m, cs)))| == |multiset(OpenList(m))| + |multiset(cs)|;
  }

  /** Grouping one more card adds it to its colour's list. */
  lemma GroupedSnoc(m: OpenMap, cs: seq<Card>, x: Card)
    ensures Grouped(m, cs + [x]) == AddOpen(Grouped(m, cs), x)
  {
    assert (cs + [x])[..|cs|] == cs;
  }

  /** Sum of the values of all open cards. */
  function OpenScore(m: OpenMap): int
    reads OpenList(m)`value
  {
    SumValues(OpenList(m))
  }

  /** Whether `picks` are positions the successive removals can take from a hand of `n` cards. */
  predicate ValidPicks(n: nat, picks: seq<int>) {
    |picks| <= n && forall k :: 0 <= k < |picks| ==> 0 <= picks[k] < n - k
  }

  /**
   * Removes the cards at positions `picks` from `hand`, one after the other,
   * each position counted in the hand as it is at that moment. Returns the
   * removed cards in removal order and the rest of the hand. A position
   * outside the hand as it is then removes nothing.
   */
  function Picks(hand: seq<Card>, picks: seq<int>): (r: (seq<Card>, seq<Card>))
    ensures |r.0| <= |picks| && |r.0| + |r.1| == |hand|
  {
    if picks == [] then ([], hand)
    else
      var k := |picks| - 1;
      var prev := Picks(hand, picks[..k]);
      if 0 <= picks[k] < |prev.1| then (prev.0 + [prev.1[picks[k]]], RemoveAt(prev.1, picks[k]))
      else prev
  }

  /** Valid picks each remove one card. */
  lemma {:induction false} PicksCount(hand: seq<Card>, picks: seq<int>)
    requires ValidPicks(|hand|, picks)
    ensures |Picks(hand, picks).0| == |picks|
  {
    if picks != [] {
      var k := |picks| - 1;
      ValidPicksPrefix(|hand|, picks, k);
      PicksCount(hand, picks[..k]);
    }
  }

  /** The removed cards and the rest of the hand together are the hand. */
  lemma {:induction false} PicksConserves(hand: seq<Card>, picks: seq<int>)
    ensures var r := Picks(hand, picks); multiset(r.0) + multiset(r.1) == multiset(hand)
  {
    if picks != [] {
      PicksConserves(hand, picks[..|picks| - 1]);
    }
  }

  /** Positions typed from 1 turned into list positions from 0. */
  function ZeroBased(selections: seq<int>): (r: seq<int>)
    ensures |r| == |selections|
    ensures forall k :: 0 <= k < |r| ==> r[k] == selections[k] - 1
  {
    if selections == [] then [] else [selections[0] - 1] + ZeroBased(selections[1..])
  }

  lemma ValidPicksPrefix(n: nat, picks: seq<int>, i: nat)
    requires ValidPicks(n, picks) && i <= |picks|
    ensures ValidPicks(n, picks[..i])
  {
  }

  /**
   * The move at step `i` of a final play: from the hand and open cards the
   * earlier picks left, it removes the card at `picks[i]` and groups it.
   */
  lemma FinalMoveStep(hand: seq<Card>, picks: seq<int>, i: nat, m: OpenMap, closed: seq<Card>, open: OpenMap)
    requires ValidPicks(|hand|, picks) && i < |picks| && |closed| == |hand| - i
    requires closed == Picks(hand, picks[..i]).1 && open == Grouped(m, Picks(hand, picks[..i]).0)
    ensures 0 <= picks[i] < |closed|
    ensures RemoveAt(closed, picks[i]) == Picks(hand, picks[..i + 1]).1
    ensures AddOpen(open, closed[picks[i]]) == Grouped(m, Picks(hand, picks[..i + 1]).0)
  {
    var prefix := picks[..i];
    assert picks[..i + 1][..i] == prefix;
    GroupedSnoc(m, Picks(hand, prefix).0, closed[picks[i]]);
  }

  /** Moving cards from the hand to the open cards loses and invents no card. */
  lemma HandToOpenConserves(hand: seq<Card>, picks: seq<int>, m: OpenMap)
    ensures var r := Picks(hand, picks);
            && multiset(r.1) + multiset(OpenList(Grouped(m, r.0))) == multiset(hand) + multiset(OpenList(m))
            && |r.1| + |OpenList(Grouped(m, r.0))| == |hand| + |OpenList(m)|
  {
    PicksConserves(hand, picks);
    GroupedOpenList(m, Picks(hand, picks).0);
  }

  /**
   * Taking the eligible cards from the parade into the open cards loses and
   * invents no card, provided the parade holds no card twice.
   */
  lemma ParadeToOpenConserves(parade: seq<Card>, played: Card, m: OpenMap)
    requires played.value >= -1 && NoDup(parade)
    ensures var r := Eligible(parade, played);
            && multiset(Without(parade, r)) + multiset(OpenList(Grouped(m, r)))
               == multiset(parade) + multiset(OpenList(m))
            && |Without(parade, r)| + |OpenList(Grouped(m, r))| == |parade| + |OpenList(m)|
  {
    var r := Eligible(parade, played);
    EligibleSubsequence(parade, played);
    RemoveSubsequence(parade, r);
    GroupedOpenList(m, r);
  }

  class Player {
    const name: string
    const human: bool
    var closedCards: seq<Card>
    var openCards: OpenMap
    var score: int

    /** A new player, human or computer, with no cards and score 0. */
    constructor (name: string, human: bool)
      ensures this.name == name && this.human == human
      ensures closedCards == [] && openCards == map[] && score == 0
    {
      this.name := name;
      this.human := human;
      closedCards := [];
      openCards := map[];
      score := 0;
    }

    /**
     * Draws INITIAL_HAND_SIZE times from the deck's tail into the hand;
     * draws from an empty deck give nothing.
     */
    method InitializeClosedCards(deck: Deck)
      modifies this`closedCards, deck`cards
      ensures var n := |old(deck.cards)|;
              var m := if n < INITIAL_HAND_SIZE then n else INITIAL_HAND_SIZE;
              && deck.cards == old(deck.cards)[..n - m]
              && closedCards == old(closedCards) + Reversed(old(deck.cards)[n - m..])
    {
      ghost var n := |deck.cards|;
      ghost var drawn := 0;
      for i := 0 to INITIAL_HAND_SIZE
        invariant drawn <= n && drawn <= i
        invariant drawn < i ==> drawn == n
        invariant deck.cards == old(deck.cards)[..n - drawn]
        invariant closedCards == old(closedCards) + Reversed(old(deck.cards)[n - drawn..])
      {
        var card := deck.RemoveCardFromDeck();
        if card != null {
          assert old(deck.cards)[n - (drawn + 1)..][1..] == old(deck.cards)[n - drawn..];
          closedCards := closedCards + [card];
          drawn := drawn + 1;
        }
      }
    }

    /**
     * The parade's last card takes its eligible cards, which leave the parade
     * and join the open lists of their colours. An empty parade gives nothing.
     */
    method DrawCardsFromParade(parade: Parade) returns (received: seq<Card>)
      requires parade.cards != [] ==> parade.cards[|parade.cards| - 1].value >= -1
      modifies this`openCards, parade`cards
      ensures old(parade.cards) == [] ==>
                received == [] && parade.cards == old(parade.cards) && openCards == old(openCards)
      ensures old(parade.cards) != [] ==>
                && received == Eligible(old(parade.cards), old(parade.cards)[|old(parade.cards)| - 1])
                && parade.cards == Without(old(parade.cards), received)
                && openCards == Grouped(old(openCards), received)
    {
      if parade.IsEmpty() {
        return [];
      }
      var played := parade.GetLastPlayedCard().value;
      received := parade.GetEligibleCards(played);
      parade.RemoveCards(received);
      AddCardsToOpenCards(received);
    }

    /** Each card, in order, joins the open list of its colour. */
    method AddCardsToOpenCards(cards: seq<Card>)
      modifies this`openCards
      ensures openCards == Grouped(old(openCards), cards)
    {
      for i := 0 to |cards|
        invariant openCards == Grouped(old(openCards), cards[..i])
      {
        assert cards[..i + 1][..i] == cards[..i];
        openCards := AddOpen(openCards, cards[i]);
      }
      assert cards[..|cards|] == cards;
    }

    /** Draws the deck's last card into the hand; false (the source throws) on an empty deck. */
    method DrawCardFromDeck(deck: Deck) returns (ok: bool)
      modifies this`closedCards, deck`cards
      ensures ok <==> old(deck.cards) != []
      ensures !ok ==> closedCards == old(closedCards) && deck.cards == old(deck.cards)
      ensures ok ==> && closedCards == old(closedCards) + [old(deck.cards)[|old(deck.cards)| - 1]]
                     && deck.cards == old(deck.cards)[..|old(deck.cards)| - 1]
    {
      var card := deck.RemoveCardFromDeck();
      if card == null {
        return false;
      }
      closedCards := closedCards + [card];
      return true;
    }

    /** Recomputes the score from zero as the sum of all open-card values. */
    method CalculateScore()
      modifies this`score
      ensures score == OpenScore(openCards)
    {
      score := 0;
      for k := 0 to |COLORS|
        invariant score == SumValues(Flatten(openCards, COLORS[..k]))
      {
        var cards := CardsOf(openCards, COLORS[k]);
        assert COLORS[..k + 1][..k] == COLORS[..k];
        ghost var before := score;
        for j := 0 to |cards|
          invariant score == before + SumValues(cards[..j])
          invariant before == SumValues(Flatten(openCards, COLORS[..k]))
        {
          assert cards[..j + 1][..j] == cards[..j];
          score := score + cards[j].value;
        }
        assert cards[..|cards|] == cards;
        SumValuesAppend(Flatten(openCards, COLORS[..k]), cards);
        assert Flatten(openCards, COLORS[..k + 1]) == Flatten(openCards, COLORS[..k]) + cards;
      }
      assert COLORS[..|COLORS|] == COLORS;
    }

    /** Number of open cards: the sum of the open list sizes. */
    function TotalOpenCards(): (n: nat)
      reads this`openCards
      ensures n == |OpenList(openCards)|
    {
      SizeSum(openCards, COLORS)
    }

    /**
     * Despite its name, the source's colour count adds up the sizes of the
     * open lists, which is the number of open cards, not of colours.
     */
    method GetColorCount() returns (totalCount: nat)
      ensures totalCount == TotalOpenCards()
    {
      totalCount := 0;
      for k := 0 to |COLORS|
        invariant totalCount == SizeSum(openCards, COLORS[..k])
      {
        assert COLORS[..k + 1][..k] == COLORS[..k];
        totalCount := totalCount + |CardsOf(openCards, COLORS[k])|;
      }
      assert COLORS[..|COLORS|] == COLORS;
    }

    /**
     * A human plays the card at 1-based `selection`, the number the card
     * prompt accepted. An empty hand is an error (the source throws).
     */
    method HumanPlayCard(parade: Parade, selection: int) returns (ok: bool)
      requires human
      requires closedCards != [] ==> 1 <= selection <= |closedCards|
      modifies this`closedCards, parade`cards
      ensures ok <==> old(closedCards) != []
      ensures !ok ==> closedCards == old(closedCards) && parade.cards == old(parade.cards)
      ensures ok ==> && closedCards == RemoveAt(old(closedCards), selection - 1)
                     && parade.cards == old(parade.cards) + [old(closedCards)[selection - 1]]
    {
      if closedCards == [] {
        return false;
      }
      var selected := closedCards[selection - 1];
      closedCards := RemoveAt(closedCards, selection - 1);
      parade.AddCard(selected);
      return true;
    }

    /**
     * A computer plays the card at 0-based `index`, the value its random
     * generator drew below the hand size. An empty hand is an error.
     */
    method ComputerPlayCard(parade: Parade, index: int) returns (ok: bool)
      requires !human
      requires closedCards != [] ==> 0 <= index < |closedCards|
      modifies this`closedCards, parade`cards
      ensures ok <==> old(closedCards) != []
      ensures !ok ==> closedCards == old(closedCards) && parade.cards == old(parade.cards)
      ensures ok ==> && closedCards == RemoveAt(old(closedCards), index)
                     && parade.cards == old(parade.cards) + [old(closedCards)[index]]
    {
      if closedCards == [] {
        return false;
      }
      var selected := closedCards[index];
      closedCards := RemoveAt(closedCards, index);
      parade.AddCard(selected);
      return true;
    }

    /**
     * The human's final play: FINAL_PLAY_MOVES times, the card at the
     * 1-based selection moves from the hand to the open list of its colour.
     * The source has no empty-hand check here: its prompt accepts no number
     * for an empty hand, so the selections must be valid.
     */
    method HumanFinalPlay(selections: seq<int>)
      requires human
      requires |selections| == FINAL_PLAY_MOVES
      requires ValidPicks(|closedCards|, ZeroBased(selections))
      modifies this`closedCards, this`openCards
      ensures var r := Picks(old(closedCards), ZeroBased(selections));
              closedCards == r.1 && openCards == Grouped(old(openCards), r.0)
    {
      MoveToOpenCards(ZeroBased(selections));
    }

    /** The loop of the human's final play: each pick moves one card from the hand to the open cards. */
    method MoveToOpenCards(picks: seq<int>)
      requires ValidPicks(|closedCards|, picks)
      modifies this`closedCards, this`openCards
      ensures var r := Picks(old(closedCards), picks);
              closedCards == r.1 && openCards == Grouped(old(openCards), r.0)
    {
      ghost var hand, m := closedCards, openCards;
      var closed, open := closedCards, openCards;
      for i := 0 to |picks|
        invariant |closed| == |hand| - i
        invariant closed == Picks(hand, picks[..i]).1
        invariant open == Grouped(m, Picks(hand, picks[..i]).0)
      {
        FinalMoveStep(hand, picks, i, m, closed, open);
        var selected := closed[picks[i]];
        closed := RemoveAt(closed, picks[i]);
        open := AddOpen(open, selected);
      }
      assert picks[..|picks|] == picks;
      closedCards, openCards := closed, open;
    }

    /**
     * The computer's final play: FINAL_PLAY_MOVES times, the card at the
     * drawn index moves from the hand to the open list of its colour. Each
     * move first checks the hand; on an empty hand the moves already made
     * stay made and the result is false (the source throws).
     */
    method ComputerFinalPlay(indices: seq<int>) returns (ok: bool)
      requires !human
      requires |indices| == FINAL_PLAY_MOVES
      requires ValidPicks(|closedCards|, indices[..Moves(|closedCards|)])
      modifies this`closedCards, this`openCards
      ensures ok <==> |old(closedCards)| >= FINAL_PLAY_MOVES
      ensures var r := Picks(old(closedCards), indices[..Moves(|old(closedCards)|)]);
              closedCards == r.1 && openCards == Grouped(old(openCards), r.0)
    {
      ghost var hand, m := closedCards, openCards;
      ghost var moves := indices[..Moves(|hand|)];
      var closed, open := closedCards, openCards;
      ok := true;
      for i := 0 to FINAL_PLAY_MOVES
        invariant i <= Moves(|hand|) && |closed| == |hand| - i
        invariant closed == Picks(hand, moves[..i]).1
        invariant open == Grouped(m, Picks(hand, moves[..i]).0)
      {
        if closed == [] {
          assert i == |hand| == |moves|;
          assert moves[..i] == moves;
          ok := false;
          break;
        }
        FinalMoveStep(hand, moves, i, m, closed, open);
        var selected := closed[indices[i]];
        closed := RemoveAt(closed, indices[i]);
        open := AddOpen(open, selected);
      }
      if ok {
        assert |moves| == FINAL_PLAY_MOVES;
        assert moves[..FINAL_PLAY_MOVES] == moves;
      }
      closedCards, openCards := closed, open;
    }
  }

  /** How many final moves a hand of `n` cards allows. */
  function Moves(n: nat): (m: nat)
    ensures m <= n && m <= FINAL_PLAY_MOVES
    ensures m == FINAL_PLAY_MOVES || m == n
  {
    if n < FINAL_PLAY_MOVES then n else FINAL_PLAY_MOVES
  }
}
