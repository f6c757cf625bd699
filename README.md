# Parade rule engine in Dafny

This project models the rule engine of the console card game *Parade*. The
game engine itself is written in Java.

- **Cards and deck.** A deck holds 66 cards: six colours, values 0 to 10. It
  is shuffled and drawn from its tail.
- **The parade.** The parade is a row of cards. A played card is appended
  to the end, and then takes certain cards before its last `value + 1`
  positions: those of its colour, or with a value no greater than its own.
  The player who played it keeps the taken cards as *open cards*, grouped by
  colour.
- **End of game.** The game ends when the deck is empty, or when a player
  holds open cards of all six colours.
- **The flip.** At the end, for each colour, the players with the most open
  cards of that colour turn those cards face down, worth 1 each. Nobody
  flips when every count is equal. With exactly two players, a difference
  of one card flips nothing either.
- **Winner and turn order.**
  - The lowest score wins. Ties are broken by open-card count, then by the
    number of colour lists.
  - Players still fully tied roll dice: a stable sort, highest roll first,
    with no reroll.
  - The starting player is chosen by dice rounds that keep the highest
    rollers.
  - The turn order is rotated so that the starting player comes first.
- **Setup.** Names are validated: length, a letter, the reserved "bot"
  prefix, and no name repeated in any case. The setup also asks for the
  player count and creates the players.

## How the model is built

Objects that the Java code updates in place are Dafny classes with the same
fields: `Card`, `Deck`, `Parade`, `Player`, `EndGameChecker`, `CardFlipper`,
`WinnerDeterminer` and `PlayerManager`.

- Their methods carry `modifies` clauses.
- Each method is proved against a specification function of the old state:
  - `Grouped` for grouping cards into open lists by colour;
  - `Eligible` for the cards a played card takes;
  - `Picks` for the cards taken out of the hand;
  - `Selected` and `Record` for the flip;
  - `Sort` for a stable insertion sort;
  - `Standing` for the list after the winner is decided;
  - `Rearranged` for the rotated turn order.
- Lemmas then prove what the game promises about those functions. For
  example: cards are neither lost nor invented, the winner has the minimum
  score, the flip rules hold, and the sort is stable.

The Java code works by loops. Those loops are Dafny `while` and `for` loops,
with invariants that tie each step to the specification function.

Randomness, the console and the clock are inputs:

- A shuffle is a sequence of draws, one per swap of `Collections.shuffle`.
- A die roll is a draw reduced to 1..6.
- A computer's card choice is an index parameter.
- A human's typed selection is a parameter.
- A console prompt is a sequence of inputs, each a number or `None` for a
  line that is not a number.

Java exceptions become results:

- `false` from a method that fails.
- `None` from a function or lookup that fails.
- A `NameCheck` verdict from name validation.

The Java colours are the strings of `COLORS`. Here they are an enumeration
with the same six names, in the same order. Java object identity is Dafny
reference identity, so `removeAll` drops exactly the card objects listed.

## Model

| member | source | states |
|---|---|---|
| Cards.Card.constructor | src/game/core/Card.java:26-29 | the new card has exactly the given colour and value; the colour is a `const`, so `getColor` returns it forever |
| Cards.Card.SetValue | src/game/core/Card.java:42-44 | the value becomes `v`; only the value field may change, so the colour stays |
| Cards.OfColorMembers | src/game/core/Player.java:98-101 | the cards of colour `c` taken from a list are exactly its cards of that colour |
| Constants.ColorsComplete | src/game/utils/Constants.java:31-32 | COLORS has TOTAL_COLORS = 6 entries and lists every colour |
| Constants.FullKeySet | src/game/gameplay/managers/EndGameChecker.java:84-96 | a map keyed by colour has TOTAL_COLORS keys exactly when every colour is a key |
| Decks.StandardDeckPairs | src/game/core/Deck.java:23-30 | the colour-major layout of a new deck repeats no (colour, value) pair, and all values lie in 0..10 |
| Decks.PositionOf | src/game/core/Deck.java:25-28 | every (colour, value) pair with value in 0..10 occurs in the layout of a new deck |
| Decks.Deck.constructor | src/game/core/Deck.java:23-30 | a new deck has 66 fresh, distinct cards, the `i`-th of the layout's colour and value |
| Decks.Deck.Size | src/game/core/Deck.java:50-52 | the size is the number of cards |
| Decks.Deck.IsEmpty | src/game/core/Deck.java:41-43 | the deck is empty exactly when its size is 0 |
| Decks.Deck.Shuffle | src/game/core/Deck.java:33-35 | the Fisher–Yates swaps of `Collections.shuffle` keep the size and the multiset of cards |
| Decks.Deck.RemoveCardFromDeck | src/game/core/Deck.java:37-39 | an empty deck gives null and stays unchanged; otherwise the former last card is returned and the rest keep their order |
| Dice.Roll | src/game/setup/Dice.java:16-18 | a roll is `nextInt(6) + 1`, always in 1..6 |
| Dice.RollCovers | src/game/setup/Dice.java:16-18 | every face 1..6 can come up |
| Parades.ToCount | src/game/core/Parade.java:66 | `max(size - value - 1, 0)` is 0 exactly when the parade holds at most `value + 1` cards, and otherwise leaves `value + 1` cards after the candidates |
| Parades.EligibleMembers | src/game/core/Parade.java:63-77 | a card is eligible exactly when it lies among the candidate positions and has the played colour or a value no greater than the played one |
| Parades.EligibleSubsequence | src/game/core/Parade.java:63-77 | the eligible cards keep the parade's order |
| Parades.EligibleSparesTail | src/game/core/Parade.java:66-70 | none of the last `value + 1` cards, the played card among them, is ever eligible |
| Parades.ShortParadeTakesNothing | src/game/core/Parade.java:66 | with at most `value + 1` cards nothing is eligible |
| Parades.Parade.constructor | src/game/core/Parade.java:21-24 | a new parade is empty and uses the given deck |
| Parades.Parade.InitializeParade | src/game/core/Parade.java:31-38 | six cards move from the deck's tail to the parade, last deck card first; when the deck runs out the moves made stay made and the result is false |
| Parades.Parade.AddCard | src/game/core/Parade.java:40-42 | the card is appended and every earlier card keeps its position |
| Parades.Parade.IsEmpty | src/game/core/Parade.java:44-46 | the parade is empty exactly when it has no card |
| Parades.Parade.GetLastPlayedCard | src/game/core/Parade.java:52-57 | the last card; None exactly when the parade is empty |
| Parades.Parade.GetEligibleCards | src/game/core/Parade.java:63-77 | the scan returns `Eligible` and changes nothing |
| Parades.Parade.RemoveCards | src/game/core/Parade.java:79-81 | `removeAll`: the parade becomes the cards not listed, in their old order |
| Lists.WithoutMembers | src/game/core/Parade.java:79-81 | after `removeAll`, the remaining cards are exactly those not listed |
| Lists.WithoutSubsequence | src/game/core/Parade.java:79-81 | `removeAll` keeps the remaining elements in their order |
| Lists.RemoveSubsequence | src/game/core/Parade.java:79-81 | removing a subsequence of a list with no repeats loses no other element: the two parts add up to the list |
| Lists.IndexOf | src/game/gameplay/managers/PlayerManager.java:34 | `indexOf`: the first position of the element, or -1 when it is absent |
| Players.AddOpen | src/game/core/Player.java:98-101 | `computeIfAbsent(...).add`: the card is appended to the list of its own colour and adds that key only |
| Players.GroupedAt | src/game/core/Player.java:98-101 | grouping appends to each colour's list exactly the new cards of that colour, in order |
| Players.GroupedKeys | src/game/core/Player.java:98-101 | grouping adds a key for each new card's colour and for no other colour |
| Players.GroupedWellGrouped | src/game/core/Player.java:98-101 | every card stored under colour `c` has colour `c`, and grouping keeps this so |
| Players.GroupedOpenList | src/game/core/Player.java:98-101 | grouping loses and invents no card: the open cards gain exactly the grouped ones |
| Players.SizeSum | src/game/core/Player.java:152-156 | the sum of the list sizes is the number of open cards |
| Players.PicksCount | src/game/core/Human.java:55-61 | valid picks each remove one card from the hand |
| Players.PicksConserves | src/game/core/Human.java:55-61 | the picked cards and the rest of the hand together are the old hand |
| Players.HandToOpenConserves | src/game/core/Computer.java:69-77 | moving cards from hand to open cards keeps the combined multiset and size |
| Players.ParadeToOpenConserves | src/game/core/Player.java:83-101 | taking the eligible cards keeps the combined multiset and size of parade and open cards |
| Players.Player.constructor | src/game/core/Player.java:39-44 | a new player has the given name and kind, an empty hand, no open cards and score 0 |
| Players.Player.InitializeClosedCards | src/game/core/Player.java:66-73 | five draws from the deck's tail into the hand; draws from an empty deck give nothing |
| Players.Player.DrawCardsFromParade | src/game/core/Player.java:83-96 | an empty parade gives nothing; otherwise the last card's eligible cards leave the parade and are grouped into the open cards, and the hand is untouched |
| Players.Player.AddCardsToOpenCards | src/game/core/Player.java:98-102 | each card in order joins the open list of its colour |
| Players.Player.DrawCardFromDeck | src/game/core/Player.java:109-115 | fails exactly on an empty deck, changing nothing; otherwise the hand gains the deck's former last card |
| Players.Player.CalculateScore | src/game/core/Player.java:121-128 | the score becomes the sum of all open-card values, computed from scratch |
| Players.Player.TotalOpenCards | src/game/core/Player.java:152-156 | the number of open cards |
| Players.Player.GetColorCount | src/game/core/Player.java:163-169 | despite its name, the number of open cards, not of colours |
| Players.Player.HumanPlayCard | src/game/core/Human.java:32-44 | fails exactly on an empty hand; otherwise card `k - 1` leaves the hand, the rest keep their order, and the card is appended to the parade |
| Players.Player.ComputerPlayCard | src/game/core/Computer.java:33-49 | fails exactly on an empty hand; otherwise the card at the drawn index leaves the hand and is appended to the parade |
| Players.Player.HumanFinalPlay | src/game/core/Human.java:54-65 | two 1-based selections each move one card from the hand to the open list of its colour |
| Players.Player.MoveToOpenCards | src/game/core/Human.java:55-61 | the loop of a final play: each pick removes a card from the hand and groups it |
| Players.Player.ComputerFinalPlay | src/game/core/Computer.java:60-79 | up to two moves from hand to open cards; it fails exactly when the hand has fewer than two cards, keeping the moves already made |
| Players.Moves | src/game/core/Computer.java:61-66 | the moves a hand allows: two, or the hand size when smaller |
| EndGame.HasAllColorsIff | src/game/gameplay/managers/EndGameChecker.java:84-96 | six keys with non-empty lists means at least one open card of every colour |
| EndGame.CollectedIff | src/game/gameplay/managers/EndGameChecker.java:84-96 | for cards grouped from nothing, having all colours means the cards show every colour |
| EndGame.EndGameChecker.constructor | src/game/gameplay/managers/EndGameChecker.java:31-34 | the checker holds the given players and deck |
| EndGame.EndGameChecker.CheckEndGame | src/game/gameplay/managers/EndGameChecker.java:44-50 | the game ends exactly when the deck is empty or some player has all colours; nothing is modified |
| EndGame.EndGameChecker.IsDeckEmpty | src/game/gameplay/managers/EndGameChecker.java:59-61 | `size == 0 \|\| isEmpty` holds exactly when the deck has no card |
| EndGame.EndGameChecker.CheckAllColorsCollected | src/game/gameplay/managers/EndGameChecker.java:68-76 | true exactly when some player has all colours |
| EndGame.EndGameChecker.HasAllColorsOf | src/game/gameplay/managers/EndGameChecker.java:84-96 | true exactly when the open map has six keys and no empty list |
| Flipping.MaxCountIsMax | src/game/gameplay/managers/CardFlipper.java:64-75 | the scanned maximum bounds every count and is reached by some player |
| Flipping.AtMaxSound | src/game/gameplay/managers/CardFlipper.java:64-75 | the players collected at the maximum have that count |
| Flipping.AtMaxComplete | src/game/gameplay/managers/CardFlipper.java:64-75 | every player with the maximum count is collected |
| Flipping.AtMaxOrdered | src/game/gameplay/managers/CardFlipper.java:64-75 | the collected players keep list order |
| Flipping.SelectedExactly | src/game/gameplay/managers/CardFlipper.java:58-88 | a player flips a colour exactly when the counts are not all equal, the two-player rule does not apply, and the player's count is the maximum; the flippers keep list order and exist whenever nothing stops the flip |
| Flipping.TwoTied | src/game/gameplay/managers/CardFlipper.java:78-81 | two players are tied exactly when their counts are equal |
| Flipping.TwoPlayerSelection | src/game/gameplay/managers/CardFlipper.java:112-123 | with two players, one flips only when holding at least two more cards of the colour than the other |
| Flipping.ScanStep | src/game/gameplay/managers/CardFlipper.java:67-73 | a larger count restarts the selection, an equal one joins it, a smaller one is passed over |
| Flipping.ScanMeaning | src/game/gameplay/managers/CardFlipper.java:64-75 | the loop's state is the maximum so far, the players at it, and whether all counts equal the first |
| Flipping.ScanSelects | src/game/gameplay/managers/CardFlipper.java:58-88 | the finished scan, with the tie rule and the two-player rule, gives the selection |
| Flipping.AddFlippedRecords | src/game/gameplay/managers/CardFlipper.java:42-45 | `putIfAbsent` followed by adding the cards records exactly those cards besides the earlier ones |
| Flipping.RecordKeys | src/game/gameplay/managers/CardFlipper.java:42 | the result has a key exactly for each player selected for some colour |
| Flipping.RecordedIff | src/game/gameplay/managers/CardFlipper.java:36-46 | the recorded cards are exactly the cards of each colour held by the players selected for it |
| Flipping.CardFlipper.constructor | src/game/gameplay/managers/CardFlipper.java:27-29 | the flipper holds the given players |
| Flipping.CardFlipper.FlipCards | src/game/gameplay/managers/CardFlipper.java:33-50 | colours in COLORS order; each selected player's cards of the colour become worth 1 and are recorded under that player; every other card keeps its value and no card changes list or owner |
| Flipping.CardFlipper.FlipColorOf | src/game/gameplay/managers/CardFlipper.java:40-46 | one selected player's cards of the colour are set to 1 and returned, and no other card changes |
| Flipping.CardFlipper.FindPlayersWithMaxCards | src/game/gameplay/managers/CardFlipper.java:58-88 | the method returns `Selected` for the colour |
| Flipping.CardFlipper.ScanPlayers | src/game/gameplay/managers/CardFlipper.java:64-75 | the loop computes the scan over all players |
| Flipping.CardFlipper.GetCardCountForColor | src/game/gameplay/managers/CardFlipper.java:98-100 | the size of the colour's open list, 0 when there is none |
| Flipping.CardFlipper.ApplyTwoPlayerRule | src/game/gameplay/managers/CardFlipper.java:112-123 | the selection is cleared exactly when the two counts differ by one |
| Flipping.FlipTwice | src/game/gameplay/managers/CardFlipper.java:37-46 | a second flip selects the same players, records the same cards and sets no new value |
| Scoring.CalculateFinalScores | src/game/gameplay/managers/ScoreCalculator.java:17-19 | every player's score becomes the sum of its open-card values; only scores change |
| Scoring.CalculateTwice | src/game/gameplay/managers/ScoreCalculator.java:17-19 | scoring twice gives the scores of scoring once |
| Ranking.Compare | src/game/gameplay/PlayerComparator.java:16-27 | the comparator's result is -1, 0 or 1 |
| Ranking.CompareLexicographic | src/game/gameplay/PlayerComparator.java:18-26 | the order is lexicographic on (score, open-card total, number of colour keys) |
| Ranking.CompareZero | src/game/gameplay/PlayerComparator.java:16-27 | `compare` is 0 exactly when all three keys agree, so a player ties with itself |
| Ranking.CompareAntisymmetric | src/game/gameplay/PlayerComparator.java:18-26 | swapping the arguments negates the result |
| Ranking.CompareTransitive | src/game/gameplay/PlayerComparator.java:18-26 | the comparator is transitive, so it is a total preorder |
| Ranking.CompareTotal | src/game/gameplay/PlayerComparator.java:18-26 | any two ranks are ordered one way or the other, or equal |
| Sorting.InsertionSort | src/game/gameplay/managers/WinnerDeterminer.java:72-74 | the sort returns `Sort` of the input |
| Sorting.SortPermutes | src/game/gameplay/managers/WinnerDeterminer.java:72-74 | sorting keeps the multiset of elements |
| Sorting.SortSorted | src/game/gameplay/managers/WinnerDeterminer.java:72-74 | for a strict order, no element is strictly before one to its left |
| Sorting.SortStable | src/game/gameplay/managers/DiceTieBreaker.java:64-70 | elements with equal keys keep their relative order |
| TieBreaking.RollMapKeys | src/game/gameplay/managers/DiceTieBreaker.java:46-56 | every tied player has a roll, nobody else does, and every roll is in 1..6 |
| TieBreaking.RollMapExact | src/game/gameplay/managers/DiceTieBreaker.java:50-54 | each distinct tied player gets exactly the roll drawn for it |
| TieBreaking.RollDice | src/game/gameplay/managers/DiceTieBreaker.java:46-56 | one roll per player, put into the map in list order |
| TieBreaking.SortPlayersByRolls | src/game/gameplay/managers/DiceTieBreaker.java:64-70 | the players sorted by roll, highest first, with the stable sort |
| TieBreaking.DiceOrder | src/game/gameplay/managers/DiceTieBreaker.java:64-70 | the dice order is a permutation, descending by roll, with equal rolls in their old order |
| TieBreaking.ResolveTie | src/game/gameplay/managers/DiceTieBreaker.java:31-36 | the tied list in dice order, whose first player wins |
| TieBreaking.TieWinner | src/game/gameplay/managers/DiceTieBreaker.java:35 | the tie-breaker's winner is a tied player with the highest roll |
| Winners.ScoreTiesSound | src/game/gameplay/managers/WinnerDeterminer.java:88-92 | the collected players have the top score |
| Winners.ScoreTiesComplete | src/game/gameplay/managers/WinnerDeterminer.java:88-92 | every player with the top score is collected |
| Winners.RankTiesSound | src/game/gameplay/managers/WinnerDeterminer.java:54-59 | the collected players compare equal to the first potential winner |
| Winners.RankTiesComplete | src/game/gameplay/managers/WinnerDeterminer.java:54-59 | every potential winner that compares equal to the first is collected |
| Winners.PotentialWinnersExactly | src/game/gameplay/managers/WinnerDeterminer.java:81-94 | the potential winners are, in order, exactly the sorted players with the first sorted score |
| Winners.TiedExactly | src/game/gameplay/managers/WinnerDeterminer.java:54-59 | the tied players are, in order, exactly the sorted players whose rank equals the first's |
| Winners.SortedFirstBest | src/game/gameplay/managers/WinnerDeterminer.java:72-74 | after sorting, no player ranks strictly before the first |
| Winners.SortedAscending | src/game/gameplay/managers/WinnerDeterminer.java:72-74 | the sorted list is a permutation, ascending by the comparator, with players that compare equal in their old order |
| Winners.TiedPrefix | src/game/gameplay/managers/WinnerDeterminer.java:54-59 | the fully tied players are a prefix of the sorted list |
| Winners.StandingNoTie | src/game/gameplay/managers/WinnerDeterminer.java:61-64 | with at most one tied player the list stays sorted and its first player wins |
| Winners.StandingTie | src/game/gameplay/managers/WinnerDeterminer.java:61-62 | with two or more tied, the list is their dice order followed by the remaining sorted players |
| Winners.StandingWinner | src/game/gameplay/managers/WinnerDeterminer.java:43-65 | the winner is a player, nobody ranks strictly before it, and it has the minimum score |
| Winners.StandingTieWinner | src/game/gameplay/managers/WinnerDeterminer.java:102-106 | with two or more tied, the winner is a tied player with the highest roll |
| Winners.StandingTieOrder | src/game/gameplay/managers/WinnerDeterminer.java:113-116 | after the tied players come exactly the others, in their sorted order |
| Winners.StandingPermutes | src/game/gameplay/managers/WinnerDeterminer.java:43-65 | over distinct players the decision only reorders the list |
| Winners.WinnerDeterminer.constructor | src/game/gameplay/managers/WinnerDeterminer.java:32-35 | the determiner holds the given list |
| Winners.WinnerDeterminer.DetermineWinner | src/game/gameplay/managers/WinnerDeterminer.java:43-65 | the list becomes `Standing` and the winner is its first player |
| Winners.WinnerDeterminer.SortPlayers | src/game/gameplay/managers/WinnerDeterminer.java:72-74 | the list becomes the stable sort by the comparator, and the ranks do not change |
| Winners.WinnerDeterminer.GetPotentialWinners | src/game/gameplay/managers/WinnerDeterminer.java:81-94 | none for an empty list; otherwise the players with the first player's score, headed by the first player |
| Winners.WinnerDeterminer.SameConditions | src/game/gameplay/managers/WinnerDeterminer.java:54-59 | the potential winners comparing equal to the first of them |
| Winners.WinnerDeterminer.ResolveTie | src/game/gameplay/managers/WinnerDeterminer.java:102-106 | the list becomes the dice order followed by the others, and the winner heads it |
| Winners.WinnerDeterminer.UpdatePlayerOrder | src/game/gameplay/managers/WinnerDeterminer.java:113-116 | `removeAll` then `addAll(0, ...)`: the tied players first, then the others in their old order |
| PlayerManagement.RotatePermutes | src/game/gameplay/managers/PlayerManager.java:37-42 | the rotation keeps the length and the multiset of players |
| PlayerManagement.RotateAt | src/game/gameplay/managers/PlayerManager.java:38-39 | the player at position `i` moves to `(i - index) mod n` |
| PlayerManagement.RotateInverse | src/game/gameplay/managers/PlayerManager.java:37-42 | rotating by the rest of the length undoes the rotation |
| PlayerManagement.RearrangedFirst | src/game/gameplay/managers/PlayerManager.java:33-43 | a present player comes first, and the list is a rearrangement of the old one |
| PlayerManagement.RearrangedHead | src/game/gameplay/managers/PlayerManager.java:33-43 | rotating to the current first player changes nothing |
| PlayerManagement.PlayerManager.constructor | src/game/gameplay/managers/PlayerManager.java:23-25 | the manager holds the given list |
| PlayerManagement.PlayerManager.RearrangePlayers | src/game/gameplay/managers/PlayerManager.java:33-43 | an absent player leaves the list unchanged; otherwise it becomes `players[index..] + players[..index]` |
| StartingPlayer.UpdateRollMap | src/game/setup/StartingPlayerDecider.java:78-80 | the player joins the group of its roll and no other group changes |
| StartingPlayer.GroupsMeaning | src/game/setup/StartingPlayerDecider.java:55-59 | each group of the roll map is exactly the players with that roll, in list order |
| StartingPlayer.MaxRollMeaning | src/game/setup/StartingPlayerDecider.java:53-59 | `maxRoll`, starting at 0, ends as the highest roll made |
| StartingPlayer.RoundExactly | src/game/setup/StartingPlayerDecider.java:55-61 | a round keeps, in order, exactly the contenders with the highest roll, and at least one |
| StartingPlayer.RunDiceRound | src/game/setup/StartingPlayerDecider.java:50-62 | the loop builds the roll map and maximum, and the group of the highest roll is returned |
| StartingPlayer.RoundShrinks | src/game/setup/StartingPlayerDecider.java:35-37 | a round never adds contenders and never leaves none |
| StartingPlayer.DecideSound | src/game/setup/StartingPlayerDecider.java:35-39 | the decided player is a contender, and a single contender is decided without a roll |
| StartingPlayer.DecideStartingPlayer | src/game/setup/StartingPlayerDecider.java:32-40 | rounds run on a copy until one contender is left, and it is returned |
| Prompts.FirstInRangeMeaning | src/game/core/Human.java:88-92 | a prompt returns the first in-range input, and gives up only when no input is in range |
| Prompts.ReadInRange | src/game/core/Human.java:81-97 | the reading loop returns the first in-range input |
| Prompts.AskForNumberOfPlayers | src/game/setup/PlayerSetup.java:27-56 | the accepted count is the first input in 2..6 |
| Prompts.GetValidCardSelection | src/game/core/Human.java:81-97 | the selection is the first input in 1..maxCards |
| Setup.ContainLetter | src/game/setup/PlayerSetup.java:149-156 | true exactly when some character is a letter |
| Setup.ToLowerMeaning | src/game/setup/PlayerSetup.java:133 | lower-casing keeps the length, leaves no capital, and is idempotent |
| Setup.ValidateName | src/game/setup/PlayerSetup.java:175-191 | the checks run in order (length, letter, bot prefix, taken) and the first failure is reported |
| Setup.VerdictAccepted | src/game/setup/PlayerSetup.java:145-191 | a name is accepted exactly when it has 3..10 characters, a letter, is not a short "bot" name, and its lower case is not taken |
| Setup.TakenAfterAdd | src/game/setup/PlayerSetup.java:133 | once a name is stored, any name equal to it up to case is refused |
| Setup.BotNameReserved | src/game/setup/PlayerSetup.java:158-164 | no human can take a single-digit bot name in any case |
| Setup.FirstAcceptedSound | src/game/setup/PlayerSetup.java:118-136 | the name a human settles on is accepted and was typed |
| Setup.ReadName | src/game/setup/PlayerSetup.java:120-131 | the retry loop returns the first accepted name |
| Setup.BotCountMeaning | src/game/setup/PlayerSetup.java:80-83 | fewer bots than players exactly when some player is human |
| Setup.AddHuman | src/game/setup/PlayerSetup.java:118-136 | adding an accepted human keeps the setup invariant |
| Setup.AddBot | src/game/setup/PlayerSetup.java:138-143 | adding the next bot keeps the setup invariant |
| Setup.HumanStep | src/game/setup/PlayerSetup.java:76-78 | seating a human under an accepted name keeps the loop's state: the stored names, the human count and the bot number all match the list |
| Setup.BotStep | src/game/setup/PlayerSetup.java:80-86 | seating the next bot keeps the loop's state, except when it would fill the last slot with no human |
| Setup.FillCreated | src/game/setup/PlayerSetup.java:72-88 | whatever the loop still adds to a list in the loop's state gives a finished list, unless it gives up |
| Setup.CreatedSeatsMeaning | src/game/setup/PlayerSetup.java:64-93 | the players made from a count and the choices: `numPlayers` of them, at least one human, bots named "Bot 1", "Bot 2", ..., every human name accepted against the earlier ones, and no two names equal up to case |
| Setup.CreatedSeatsRetry | src/game/setup/PlayerSetup.java:80-82 | a computer chosen for the last slot while no human exists is refused, and the slot is asked again |
| Setup.CreatePlayers | src/game/setup/PlayerSetup.java:64-93 | gives up exactly when `CreatedSeats` does (the choices run out, or a human's attempts hold no accepted name); otherwise its players' names and kinds are, in order, the seats `CreatedSeats` builds from the choices with `FirstAccepted` and the retry rule, and form a finished list |

## Left out

- Console output, colours and animation: every renderer call inside a
  modelled method does nothing in this model.
- `Card.getValue`, `Card.getColor`, `Player.getScore`, `Player.getName`,
  `Parade.getCards` and the other getters are the fields themselves.
  `isHuman` is the `human` field: the constructor sets it, true for a human
  player and false for a computer player.
- Letters are ASCII letters, and lower-casing is ASCII lower-casing.
  `Character.isLetter` and `toLowerCase` accept much more of Unicode.
- The whitespace trimming of typed names and the parsing done by
  `getPlayerType` are not modelled: each slot's choice is given as a
  `Choice`, and a human's attempts as already-trimmed strings.
- Scanner I/O is a sequence of inputs. A prompt that runs out of inputs
  gives up with `None`, where the program would keep waiting.
- The random generator is not modelled. Shuffle draws, die draws and the
  computer's card index are parameters.
- Prompts.GetValidCardSelection: the accepted number is proved to lie in
  1..maxCards. The prompt text and the error messages for numbers out of
  range are not modelled.
- StartingPlayer.DecideStartingPlayer: the rounds come from a finite supply,
  so a run of ties longer than the supply ends with `None`. The program
  would keep rolling.
- `handleTieOfDice` only announces a tie and returns its argument, so
  `RunDiceRound` returns the group directly.
- `GameManager`, `GameController`, `GameMenu`, `QuitHandler` and `Podium`
  are not part of this model. They sequence the modelled operations, or
  show results.
- `DiceTieBreaker.resolveTie` sorts the caller's list in place. Here the
  sorted list is returned, and `WinnerDeterminer` uses it for both the
  winner and the new player order, as the shared list is in the program.
- The `HashMap` iteration order of the open cards is not modelled. Open
  cards are summed and listed over COLORS order. Every sum and count taken
  over them is independent of the order.
- `WinnerDeterminer` reads scores and open cards while sorting. Here the
  ranks are a snapshot taken before the sort, and the proofs carry the fact
  that the sort changes no rank.
- Players.Player.HumanPlayCard and Players.Player.ComputerPlayCard require
  the selection or index to be valid for a non-empty hand. The prompt and
  the random draw guarantee that in the program.
- Players.Player.HumanFinalPlay requires valid selections and makes no
  empty-hand check, as the source makes none.
- Players.Player.DrawCardsFromParade requires the last card's value to be
  at least -1. Card values are 0..10 or 1; a smaller value would make the
  source's scan run past the end of the list.
- Parades.Parade.GetEligibleCards requires the played card's value to be
  at least -1, and so do Parades.Eligible and its lemmas. Card values are
  0..10 or 1. A value below -1 makes the source's scan read past the end of
  the list and throw IndexOutOfBoundsException.
- PlayerManagement.PlayerManager.RearrangePlayers follows the code. The
  method's comment says the relative order of the rest stays unchanged, but
  the code rotates the list: [A, B, C] started at B becomes [B, C, A].
- Setup.CreatePlayers proves distinct names only for up to 10 players,
  which covers every count the prompt accepts (2..6). From an eleventh
  player on, "bot 10" is long enough to escape the bot rule, so a human
  could take a bot's name.
- Exceptions are `false`, `None` or a `NameCheck` verdict. The exception
  classes themselves are not modelled.
