/**
 * Game constants of src/game/utils/Constants.java.
 * The Java code keeps colours as the strings of COLORS; here they are an
 * enumeration with the same six names, in the same order.
 */
module Constants {
  datatype Color = Blue | Green | Grey | Orange | Purple | Red

  const COLORS: seq<Color> := [Blue, Green, Grey, Orange, Purple, Red]
  const TOTAL_COLORS: nat := 6
  const MIN_VALUE_OF_CARD: int := 0
  const MAX_VALUE_OF_CARD: int := 10
  /** Number of values per colour: MIN_VALUE_OF_CARD..MAX_VALUE_OF_CARD. */
  const VALUES_PER_COLOR: nat := 11
  const INITIAL_CARDS_OF_PARADE: nat := 6
  const INITIAL_HAND_SIZE: nat := 5
  const FINAL_PLAY_MOVES: nat := 2
  const MIN_PLAYERS: nat := 2
  const MAX_PLAYERS: nat := 6
  const MIN_DIFFERENCE_FOR_TWO_PLAYERS: nat := 2
  const FLIPPED_CARD_VALUE: int := 1

  /** COLORS lists every colour exactly once. */
  lemma ColorsComplete()
    ensures |COLORS| == TOTAL_COLORS
    ensures forall c: Color :: c in COLORS
    ensures forall i, j :: 0 <= i < j < |COLORS| ==> COLORS[i] != COLORS[j]
  {
    forall c: Color ensures c in COLORS {
      match c
      case Blue => assert COLORS[0] == c;
      case Green => assert COLORS[1] == c;
      case Grey => assert COLORS[2] == c;
      case Orange => assert COLORS[3] == c;
      case Purple => assert COLORS[4] == c;
      case Red => assert COLORS[5] == c;
    }
  }

  /** The set of all colours. */
  const ALL_COLORS: set<Color> := {Blue, Green, Grey, Orange, Purple, Red}

  lemma AllColors()
    ensures |ALL_COLORS| == TOTAL_COLORS
    ensures forall c: Color :: c in ALL_COLORS
  {
    forall c: Color ensures c in ALL_COLORS {
      match c
      case Blue =>
      case Green =>
      case Grey =>
      case Orange =>
      case Purple =>
      case Red =>
    }
  }

  /** A proper subset has fewer elements. */
  lemma ProperSubsetSmaller<T>(a: set<T>, b: set<T>)
    requires a < b
    ensures |a| < |b|
  {
    var x :| x in b && x !in a;
    var rest := b - {x};
    assert rest == a + (rest - a);
    assert a * (rest - a) == {};
  }

  /** A subset with as many elements as its superset is the superset. */
  lemma SubsetOfSameSize<T>(a: set<T>, b: set<T>)
    requires a <= b && |a| == |b|
    ensures a == b
  {
    if a != b {
      ProperSubsetSmaller(a, b);
    }
  }

  /** A map keyed by colours has TOTAL_COLORS keys exactly when every colour is a key. */
  lemma FullKeySet<V>(m: map<Color, V>)
    ensures |m| == TOTAL_COLORS <==> forall c: Color :: c in m
  {
    AllColors();
    assert m.Keys <= ALL_COLORS;
    if forall c: Color :: c in m {
      assert m.Keys == ALL_COLORS;
    }
    if |m| == TOTAL_COLORS {
      SubsetOfSameSize(m.Keys, ALL_COLORS);
    }
  }
}
