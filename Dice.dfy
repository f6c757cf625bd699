/**
 * The six-sided die of src/game/setup/Dice.java. The random generator is
 * not modelled: a roll is computed from `draw`, the number the generator
 * produced, as `nextInt(6) + 1`.
 */
module Dice {
  /** `roll`: `nextInt(6)` is the draw taken modulo 6, and one is added. */
  function Roll(draw: nat): (face: int)
    ensures 1 <= face <= 6
  {
    draw % 6 + 1
  }

  /** Every face can come up. */
  lemma RollCovers(face: int)
    requires 1 <= face <= 6
    ensures Roll(face - 1) == face
  {
  }
}
