/**
 * The console prompts that repeat until they read a number in a range:
 * the player count of src/game/setup/PlayerSetup.java (2 to 6) and the
 * card selection of src/game/core/Human.java (1 to the hand size). The
 * console is a sequence of inputs: `Some(n)` is a line that reads as the
 * number `n`, `None` one that does not. When the inputs run out before a
 * number in range comes, the prompt gives up with `None`.
 */
module Prompts {
  import opened Wrappers
  import opened Constants

  /** An input that is a number from `lo` to `hi`. */
  predicate InRange(input: Option<int>, lo: int, hi: int) {
    input.Some? && lo <= input.value <= hi
  }

  /** The first input in range, if any. */
  function FirstInRange(inputs: seq<Option<int>>, lo: int, hi: int): Option<int> {
    if inputs == [] then None
    else if InRange(inputs[0], lo, hi) then inputs[0]
    else FirstInRange(inputs[1..], lo, hi)
  }

  /**
   * The prompt returns a number in range that was the first such input, and
   * gives up only when no input was in range.
   */
  lemma {:induction false} FirstInRangeMeaning(inputs: seq<Option<int>>, lo: int, hi: int)
    ensures var r := FirstInRange(inputs, lo, hi);
            && (r.None? <==> forall i :: 0 <= i < |inputs| ==> !InRange(inputs[i], lo, hi))
            && (r.Some? ==> lo <= r.value <= hi)
            && (r.Some? ==> exists i :: 0 <= i < |inputs| && inputs[i] == r &&
                                        forall j :: 0 <= j < i ==> !InRange(inputs[j], lo, hi))
  {
    if inputs != [] && !InRange(inputs[0], lo, hi) {
      var r := FirstInRange(inputs, lo, hi);
      FirstInRangeMeaning(inputs[1..], lo, hi);
      if r.Some? {
        var i :| 0 <= i < |inputs[1..]| && inputs[1..][i] == r &&
                 forall j :: 0 <= j < i ==> !InRange(inputs[1..][j], lo, hi);
        assert inputs[i + 1] == r;
        assert forall j :: 0 <= j < i + 1 ==> !InRange(inputs[j], lo, hi) by {
          forall j | 0 < j < i + 1
            ensures !InRange(inputs[j], lo, hi)
          {
            assert inputs[j] == inputs[1..][j - 1];
          }
        }
      } else {
        forall i | 0 < i < |inputs|
          ensures !InRange(inputs[i], lo, hi)
        {
          assert inputs[i] == inputs[1..][i - 1];
        }
      }
    }
  }

  /** The shared `while (true)` loop: read until an input is in range. */
  method ReadInRange(inputs: seq<Option<int>>, lo: int, hi: int) returns (r: Option<int>)
    ensures r == FirstInRange(inputs, lo, hi)
  {
    var i := 0;
    while i < |inputs|
      invariant 0 <= i <= |inputs|
      invariant FirstInRange(inputs[i..], lo, hi) == FirstInRange(inputs, lo, hi)
    {
      var input := inputs[i];
      if input.Some? && lo <= input.value && input.value <= hi {
        return input;
      }
      assert inputs[i..][1..] == inputs[i + 1..];
      i := i + 1;
    }
    return None;
  }

  /** `askForNumberOfPlayers`: the first count from MIN_PLAYERS to MAX_PLAYERS. */
  method AskForNumberOfPlayers(inputs: seq<Option<int>>) returns (count: Option<int>)
    ensures count == FirstInRange(inputs, MIN_PLAYERS, MAX_PLAYERS)
    ensures count.Some? ==> MIN_PLAYERS <= count.value <= MAX_PLAYERS
  {
    count := ReadInRange(inputs, MIN_PLAYERS, MAX_PLAYERS);
    FirstInRangeMeaning(inputs, MIN_PLAYERS, MAX_PLAYERS);
  }

  /** `getValidCardSelection`: the first 1-based card number from 1 to `maxCards`. */
  method GetValidCardSelection(inputs: seq<Option<int>>, maxCards: int) returns (selection: Option<int>)
    ensures selection == FirstInRange(inputs, 1, maxCards)
    ensures selection.Some? ==> 1 <= selection.value <= maxCards
  {
    selection := ReadInRange(inputs, 1, maxCards);
    FirstInRangeMeaning(inputs, 1, maxCards);
  }
}
