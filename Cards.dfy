/** A playing card: a fixed colour and a value that the end-of-game flip may overwrite. */
module Cards {
  import opened Constants

  class Card {
    /** Fixed at construction; nothing reassigns it. */
    const color: Color
    var value: int

    constructor (color: Color, value: int)
      ensures this.color == color && this.value == value
    {
      this.color := color;
      this.value := value;
    }

    /** Overwrites the value; the colour is a constant and stays as it was. */
    method SetValue(value: int)
      modifies this`value
      ensures this.value == value
    {
      this.value := value;
    }
  }

  /** Sum of the values of the cards in `cs`. */
  function SumValues(cs: seq<Card>): int
    reads cs`value
  {
    if cs == [] then 0 else SumValues(cs[..|cs| - 1]) + cs[|cs| - 1].value
  }

  lemma {:induction false} SumValuesAppend(a: seq<Card>, b: seq<Card>)
    ensures SumValues(a + b) == SumValues(a) + SumValues(b)
    decreases |b|
  {
    if b != [] {
      assert (a + b)[..|a + b| - 1] == a + b[..|b| - 1];
      SumValuesAppend(a, b[..|b| - 1]);
    } else {
      assert a + b == a;
    }
  }

  /** The cards of `cs` that have colour `c`, in order. */
  function OfColor(cs: seq<Card>, c: Color): (r: seq<Card>)
    ensures |r| <= |cs|
  {
    if cs == [] then []
    else OfColor(cs[..|cs| - 1], c) + (if cs[|cs| - 1].color == c then [cs[|cs| - 1]] else [])
  }

  /** OfColor keeps exactly the cards of colour `c`. */
  lemma {:induction false} OfColorMembers(cs: seq<Card>, c: Color)
    ensures forall i :: 0 <= i < |OfColor(cs, c)| ==> OfColor(cs, c)[i] in cs && OfColor(cs, c)[i].color == c
    ensures forall i :: 0 <= i < |cs| && cs[i].color == c ==> cs[i] in OfColor(cs, c)
  {
    if cs != [] {
      var init, last := cs[..|cs| - 1], cs[|cs| - 1];
      OfColorMembers(init, c);
      assert cs == init + [last];
    }
  }
}
