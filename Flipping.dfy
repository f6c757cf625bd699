/**
 * The end-of-game flip: for each colour, the players holding the most open
 * cards of that colour turn all of them into cards worth
 * FLIPPED_CARD_VALUE. Nobody flips a colour when all counts are equal, and
 * with exactly two players a difference of one card also flips nothing.
 *
 * The flip changes card values only, never which card lies in which open
 * list, so its rules are stated over a snapshot of the players' open cards.
 */
module Flipping {
  import opened Constants
  import opened Cards
  import opened Lists
  import opened Parades
  import opened Players

  /** Each player's open cards, as they stand. */
  type Snapshot = map<Player, OpenMap>

  /** The open cards of the players of `ps`. */
  function SnapshotOf(ps: seq<Player>): (s: Snapshot)
    reads ps`openCards
    ensures forall i :: 0 <= i < |ps| ==> ps[i] in s && s[ps[i]] == ps[i].openCards
  {
    map p | p in ps :: p.openCards
  }

  /** The open cards of `p` in the snapshot, none when absent. */
  function OpenOf(s: Snapshot, p: Player): OpenMap {
    if p in s then s[p] else map[]
  }

  /** The count of colour `c` of player `p` in the snapshot. */
  function Count(s: Snapshot, p: Player, c: Color): nat {
    |CardsOf(OpenOf(s, p), c)|
  }

  /** The largest count of colour `c` among the first `i` players, starting from 0 as the scan does. */
  function MaxCount(s: Snapshot, ps: seq<Player>, c: Color, i: nat): nat
    requires i <= |ps|
  {
    if i == 0 then 0
    else
      var m := MaxCount(s, ps, c, i - 1);
      var n := Count(s, ps[i - 1], c);
      if n > m then n else m
  }

  /** The maximum bounds every count and, over at least one player, is one of them. */
  lemma {:induction false} MaxCountIsMax(s: Snapshot, ps: seq<Player>, c: Color, i: nat)
    requires i <= |ps|
    ensures forall j :: 0 <= j < i ==> Count(s, ps[j], c) <= MaxCount(s, ps, c, i)
    ensures i > 0 ==> exists j :: 0 <= j < i && Count(s, ps[j], c) == MaxCount(s, ps, c, i)
  {
    if i > 0 {
      MaxCountIsMax(s, ps, c, i - 1);
      if i > 1 && MaxCount(s, ps, c, i) == MaxCount(s, ps, c, i - 1) {
        var j :| 0 <= j < i - 1 && Count(s, ps[j], c) == MaxCount(s, ps, c, i - 1);
      } else {
        assert Count(s, ps[i - 1], c) == MaxCount(s, ps, c, i);
      }
    }
  }

  /** The first `i` players whose count of `c` is `m`, in list order. */
  function AtMax(s: Snapshot, ps: seq<Player>, c: Color, m: nat, i: nat): seq<Player>
    requires i <= |ps|
  {
    if i == 0 then []
    else
      var prev := AtMax(s, ps, c, m, i - 1);
      if Count(s, ps[i - 1], c) == m then prev + [ps[i - 1]] else prev
  }

  /** AtMax keeps only players of the first `i` whose count is `m`. */
  lemma {:induction false} AtMaxSound(s: Snapshot, ps: seq<Player>, c: Color, m: nat, i: nat)
    requires i <= |ps|
    ensures forall j :: 0 <= j < |AtMax(s, ps, c, m, i)| ==>
              AtMax(s, ps, c, m, i)[j] in ps[..i] && Count(s, AtMax(s, ps, c, m, i)[j], c) == m
  {
    if i > 0 {
      AtMaxSound(s, ps, c, m, i - 1);
      assert ps[..i] == ps[..i - 1] + [ps[i - 1]];
    }
  }

  /** AtMax keeps every player of the first `i` whose count is `m`. */
  lemma {:induction false} AtMaxComplete(s: Snapshot, ps: seq<Player>, c: Color, m: nat, i: nat)
    requires i <= |ps|
    ensures forall j :: 0 <= j < i && Count(s, ps[j], c) == m ==> ps[j] in AtMax(s, ps, c, m, i)
  {
    if i > 0 {
      AtMaxComplete(s, ps, c, m, i - 1);
    }
  }

  /** AtMax keeps list order. */
  lemma {:induction false} AtMaxOrdered(s: Snapshot, ps: seq<Player>, c: Color, m: nat, i: nat)
    requires i <= |ps|
    ensures Subsequence(AtMax(s, ps, c, m, i), ps[..i])
  {
    if i > 0 {
      var prev := AtMax(s, ps, c, m, i - 1);
      AtMaxOrdered(s, ps, c, m, i - 1);
      assert ps[..i] == ps[..i - 1] + [ps[i - 1]];
      if Count(s, ps[i - 1], c) == m {
        SubsequenceSnoc(prev, ps[..i - 1], ps[i - 1]);
      } else {
        SubsequencePrefix(prev, ps[..i - 1], [ps[i - 1]]);
      }
    }
  }

  /** When every count is below `m`, nobody has count `m`. */
  lemma {:induction false} AtMaxNone(s: Snapshot, ps: seq<Player>, c: Color, m: nat, i: nat)
    requires i <= |ps|
    requires forall j :: 0 <= j < i ==> Count(s, ps[j], c) < m
    ensures AtMax(s, ps, c, m, i) == []
  {
    if i > 0 {
      AtMaxNone(s, ps, c, m, i - 1);
    }
  }

  /** Each of the first `i` players has `n` cards of colour `c`. */
  predicate AllCount(s: Snapshot, ps: seq<Player>, c: Color, n: nat, i: nat)
    requires i <= |ps|
  {
    forall j :: 0 <= j < i ==> Count(s, ps[j], c) == n
  }

  /** Every player has the same count of `c` as the first one. */
  predicate AllTied(s: Snapshot, ps: seq<Player>, c: Color)
    requires ps != []
  {
    AllCount(s, ps, c, Count(s, ps[0], c), |ps|)
  }

  /** The two-player rule: counts that differ, but by less than MIN_DIFFERENCE_FOR_TWO_PLAYERS. */
  predicate TooClose(a: nat, b: nat) {
    var d := if a >= b then a - b else b - a;
    d < MIN_DIFFERENCE_FOR_TWO_PLAYERS && d != 0
  }

  /** The players who flip colour `c`. */
  function Selected(s: Snapshot, ps: seq<Player>, c: Color): seq<Player>
    requires ps != []
  {
    if AllTied(s, ps, c) then []
    else if |ps| == 2 && TooClose(Count(s, ps[0], c), Count(s, ps[1], c)) then []
    else AtMax(s, ps, c, MaxCount(s, ps, c, |ps|), |ps|)
  }

  /**
   * A player flips colour `c` exactly when the counts are not all equal,
   * the two-player rule does not apply, and the player's count is the
   * largest. The flipping players are players of the list, in list order,
   * and there is at least one whenever nothing stops the flip.
   */
  lemma SelectedExactly(s: Snapshot, ps: seq<Player>, c: Color)
    requires ps != []
    ensures forall i :: 0 <= i < |ps| ==>
              (ps[i] in Selected(s, ps, c) <==>
                 && !AllTied(s, ps, c)
                 && !(|ps| == 2 && TooClose(Count(s, ps[0], c), Count(s, ps[1], c)))
                 && Count(s, ps[i], c) == MaxCount(s, ps, c, |ps|))
    ensures forall j :: 0 <= j < |Selected(s, ps, c)| ==> Selected(s, ps, c)[j] in ps
    ensures Subsequence(Selected(s, ps, c), ps)
    ensures !AllTied(s, ps, c) && !(|ps| == 2 && TooClose(Count(s, ps[0], c), Count(s, ps[1], c)))
            ==> Selected(s, ps, c) != []
  {
    var max := MaxCount(s, ps, c, |ps|);
    assert ps[..|ps|] == ps;
    MaxCountIsMax(s, ps, c, |ps|);
    AtMaxSound(s, ps, c, max, |ps|);
    AtMaxComplete(s, ps, c, max, |ps|);
    AtMaxOrdered(s, ps, c, max, |ps|);
    if Selected(s, ps, c) == [] {
      SubsequenceOfEmpty(Selected(s, ps, c), ps);
    }
  }

  /** With two players the maximum is the larger of the two counts. */
  lemma TwoMax(s: Snapshot, ps: seq<Player>, c: Color)
    requires |ps| == 2
    ensures var a, b := Count(s, ps[0], c), Count(s, ps[1], c);
            MaxCount(s, ps, c, 2) == if b > a then b else a
  {
    assert MaxCount(s, ps, c, 1) == Count(s, ps[0], c);
  }

  /** Two players are tied exactly when their counts are equal. */
  lemma TwoTied(s: Snapshot, ps: seq<Player>, c: Color)
    requires |ps| == 2
    ensures AllTied(s, ps, c) <==> Count(s, ps[0], c) == Count(s, ps[1], c)
  {
  }

  /** With two players, those at count `m` are the first and then the second, each when its count is `m`. */
  lemma TwoAtMax(s: Snapshot, ps: seq<Player>, c: Color, m: nat)
    requires |ps| == 2
    ensures AtMax(s, ps, c, m, 2)
         == (if Count(s, ps[0], c) == m then [ps[0]] else []) + (if Count(s, ps[1], c) == m then [ps[1]] else [])
  {
    assert AtMax(s, ps, c, m, 1) == if Count(s, ps[0], c) == m then [ps[0]] else [];
  }

  /**
   * With two players, one flips a colour only when holding at least two
   * more cards of it than the other; otherwise nobody flips it.
   */
  lemma TwoPlayerSelection(s: Snapshot, ps: seq<Player>, c: Color)
    requires |ps| == 2
    ensures var a, b := Count(s, ps[0], c), Count(s, ps[1], c);
            Selected(s, ps, c) == if a >= b + 2 then [ps[0]] else if b >= a + 2 then [ps[1]] else []
  {
    var a, b := Count(s, ps[0], c), Count(s, ps[1], c);
    TwoMax(s, ps, c);
    TwoTied(s, ps, c);
    if a >= b + 2 {
      TwoAtMax(s, ps, c, a);
      assert [ps[0]] + [] == [ps[0]];
    } else if b >= a + 2 {
      TwoAtMax(s, ps, c, b);
      assert [] + [ps[1]] == [ps[1]];
    }
  }

  /**
   * One step of the scan for the largest count: a larger count starts a new
   * selection, an equal one joins it, a smaller one is passed over.
   */
  lemma ScanStep(s: Snapshot, ps: seq<Player>, c: Color, i: nat)
    requires i < |ps|
    ensures var n, max := Count(s, ps[i], c), MaxCount(s, ps, c, i);
            AtMax(s, ps, c, MaxCount(s, ps, c, i + 1), i + 1)
            == if n > max then [ps[i]]
               else if n == max then AtMax(s, ps, c, max, i) + [ps[i]]
               else AtMax(s, ps, c, max, i)
  {
    var n, max := Count(s, ps[i], c), MaxCount(s, ps, c, i);
    if n > max {
      MaxCountIsMax(s, ps, c, i);
      AtMaxNone(s, ps, c, n, i);
    }
  }

  /** What the scan for the largest count carries: the maximum so far, the players at it, and whether all counts so far equal the first. */
  datatype ScanState = ScanState(max: nat, top: seq<Player>, tied: bool)

  /** One step of the scan over player `p` with count `n`, where `first` is the first player's count. */
  function ScanNext(st: ScanState, p: Player, n: nat, first: nat): ScanState {
    var tied := st.tied && n == first;
    if n > st.max then ScanState(n, [p], tied)
    else if n == st.max then ScanState(st.max, st.top + [p], tied)
    else ScanState(st.max, st.top, tied)
  }

  /** The scan over the first `i` players. */
  function Scan(s: Snapshot, ps: seq<Player>, c: Color, first: nat, i: nat): ScanState
    requires i <= |ps|
  {
    if i == 0 then ScanState(0, [], true)
    else ScanNext(Scan(s, ps, c, first, i - 1), ps[i - 1], Count(s, ps[i - 1], c), first)
  }

  /** The scan finds the largest count, the players at it in list order, and whether all counts equal `first`. */
  lemma {:induction false} ScanMeaning(s: Snapshot, ps: seq<Player>, c: Color, first: nat, i: nat)
    requires i <= |ps|
    ensures Scan(s, ps, c, first, i)
         == ScanState(MaxCount(s, ps, c, i), AtMax(s, ps, c, MaxCount(s, ps, c, i), i), AllCount(s, ps, c, first, i))
  {
    if i > 0 {
      ScanMeaning(s, ps, c, first, i - 1);
      ScanStep(s, ps, c, i - 1);
    }
  }

  /** The completed scan, with the tie rule and the two-player rule, gives the selection. */
  lemma ScanSelects(s: Snapshot, ps: seq<Player>, c: Color)
    requires ps != []
    ensures var st := Scan(s, ps, c, Count(s, ps[0], c), |ps|);
            Selected(s, ps, c)
              == if st.tied then []
                 else if |ps| == 2 && TooClose(Count(s, ps[0], c), Count(s, ps[1], c)) then []
                 else st.top
  {
    ScanMeaning(s, ps, c, Count(s, ps[0], c), |ps|);
  }

  /** Card `x` is recorded in the list of some player of `f`. */
  ghost predicate InRecord(f: map<Player, seq<Card>>, x: Card) {
    exists q :: q in f && x in f[q]
  }

  /** `putIfAbsent(player, new list)` followed by adding each card of `cs`. */
  function AddFlipped(f: map<Player, seq<Card>>, p: Player, cs: seq<Card>): (r: map<Player, seq<Card>>)
    ensures r.Keys == f.Keys + {p}
    ensures forall q :: q in f && q != p ==> r[q] == f[q]
  {
    f[p := (if p in f then f[p] else []) + cs]
  }

  /** Adding `cs` under a player records exactly the cards of `cs` besides those recorded before. */
  lemma AddFlippedRecords(f: map<Player, seq<Card>>, p: Player, cs: seq<Card>)
    ensures forall x :: InRecord(AddFlipped(f, p, cs), x) <==> InRecord(f, x) || x in cs
  {
    var r := AddFlipped(f, p, cs);
    forall x | InRecord(f, x) ensures InRecord(r, x) {
      var q: Player :| q in f && x in f[q];
      if q == p {
        assert x in r[p];
      } else {
        assert x in r[q];
      }
    }
    forall x | x in cs ensures InRecord(r, x) {
      assert x in r[p];
    }
  }

  /** The record after the players `sel` flip colour `c`, one after the other. */
  function ColorRecord(s: Snapshot, f: map<Player, seq<Card>>, sel: seq<Player>, c: Color): map<Player, seq<Card>> {
    if sel == [] then f
    else
      var last := sel[|sel| - 1];
      AddFlipped(ColorRecord(s, f, sel[..|sel| - 1], c), last, CardsOf(OpenOf(s, last), c))
  }

  /** The record of the whole flip over the colours `colors`, in their order. */
  function Record(s: Snapshot, ps: seq<Player>, colors: seq<Color>): map<Player, seq<Card>>
    requires ps != []
  {
    if colors == [] then map[]
    else
      var c := colors[|colors| - 1];
      ColorRecord(s, Record(s, ps, colors[..|colors| - 1]), Selected(s, ps, c), c)
  }

  /** One more player of the selection adds that player's cards of the colour. */
  lemma ColorRecordSnoc(s: Snapshot, f: map<Player, seq<Card>>, sel: seq<Player>, j: nat, c: Color)
    requires j < |sel|
    ensures ColorRecord(s, f, sel[..j + 1], c)
         == AddFlipped(ColorRecord(s, f, sel[..j], c), sel[j], CardsOf(OpenOf(s, sel[j]), c))
  {
    assert sel[..j + 1][..j] == sel[..j];
  }

  /** One more colour adds the record of the players selected for it. */
  lemma RecordSnoc(s: Snapshot, ps: seq<Player>, colors: seq<Color>, k: nat)
    requires ps != [] && k < |colors|
    ensures Record(s, ps, colors[..k + 1])
         == ColorRecord(s, Record(s, ps, colors[..k]), Selected(s, ps, colors[k]), colors[k])
  {
    assert colors[..k + 1][..k] == colors[..k];
  }

  /** Player `p` is selected for some colour of `colors`. */
  ghost predicate SelectedFor(s: Snapshot, ps: seq<Player>, colors: seq<Color>, p: Player)
    requires ps != []
  {
    exists c :: c in colors && p in Selected(s, ps, c)
  }

  /** A player has a flipped list exactly when selected for some colour. */
  lemma {:induction false} RecordKeys(s: Snapshot, ps: seq<Player>, colors: seq<Color>)
    requires ps != []
    ensures forall p :: p in Record(s, ps, colors) <==> SelectedFor(s, ps, colors, p)
  {
    if colors != [] {
      var init, c := colors[..|colors| - 1], colors[|colors| - 1];
      RecordKeys(s, ps, init);
      ColorRecordKeys(s, Record(s, ps, init), Selected(s, ps, c), c);
      forall p ensures SelectedFor(s, ps, colors, p) <==> SelectedFor(s, ps, init, p) || p in Selected(s, ps, c) {
        if SelectedFor(s, ps, colors, p) {
          var d :| d in colors && p in Selected(s, ps, d);
          if d != c {
            assert d in init;
          }
        }
        if SelectedFor(s, ps, init, p) {
          var d :| d in init && p in Selected(s, ps, d);
          assert d in colors;
        }
      }
    }
  }

  /** The keys of a colour's record are the earlier keys and the selected players. */
  lemma {:induction false} ColorRecordKeys(s: Snapshot, f: map<Player, seq<Card>>, sel: seq<Player>, c: Color)
    ensures forall p :: p in ColorRecord(s, f, sel, c) <==> p in f || p in sel
  {
    if sel != [] {
      ColorRecordKeys(s, f, sel[..|sel| - 1], c);
      assert sel == sel[..|sel| - 1] + [sel[|sel| - 1]];
    }
  }

  /** Card `x` has colour `c` and belongs to a player of `sel`. */
  ghost predicate HeldBy(s: Snapshot, sel: seq<Player>, c: Color, x: Card) {
    exists j :: 0 <= j < |sel| && x in CardsOf(OpenOf(s, sel[j]), c)
  }

  /** A card is flipped by a player selected for its colour, among the colours `colors`. */
  ghost predicate FlippedBy(s: Snapshot, ps: seq<Player>, colors: seq<Color>, x: Card)
    requires ps != []
  {
    exists c :: c in colors && HeldBy(s, Selected(s, ps, c), c, x)
  }

  /**
   * The recorded cards are exactly the cards of colour `c` held by the
   * players selected for `c`, over all the colours flipped.
   */
  lemma {:induction false} RecordedIff(s: Snapshot, ps: seq<Player>, colors: seq<Color>)
    requires ps != []
    ensures forall x :: InRecord(Record(s, ps, colors), x) <==> FlippedBy(s, ps, colors, x)
  {
    if colors != [] {
      var init, c := colors[..|colors| - 1], colors[|colors| - 1];
      RecordedIff(s, ps, init);
      ColorRecordRecorded(s, Record(s, ps, init), Selected(s, ps, c), c);
      forall x ensures FlippedBy(s, ps, colors, x) <==> FlippedBy(s, ps, init, x) || HeldBy(s, Selected(s, ps, c), c, x) {
        if FlippedBy(s, ps, colors, x) {
          var d :| d in colors && HeldBy(s, Selected(s, ps, d), d, x);
          if d != c {
            assert d in init;
          }
        }
        if FlippedBy(s, ps, init, x) {
          var d :| d in init && HeldBy(s, Selected(s, ps, d), d, x);
          assert d in colors;
        }
      }
    }
  }

  /** The cards a colour's record adds are those of colour `c` of the selected players. */
  lemma {:induction false} ColorRecordRecorded(s: Snapshot, f: map<Player, seq<Card>>, sel: seq<Player>, c: Color)
    ensures forall x :: InRecord(ColorRecord(s, f, sel, c), x) <==> InRecord(f, x) || HeldBy(s, sel, c, x)
  {
    if sel != [] {
      var init, last := sel[..|sel| - 1], sel[|sel| - 1];
      ColorRecordRecorded(s, f, init, c);
      AddFlippedRecords(ColorRecord(s, f, init, c), last, CardsOf(OpenOf(s, last), c));
      forall x ensures HeldBy(s, sel, c, x) <==> HeldBy(s, init, c, x) || x in CardsOf(OpenOf(s, last), c) {
        if HeldBy(s, sel, c, x) {
          var j :| 0 <= j < |sel| && x in CardsOf(OpenOf(s, sel[j]), c);
          if j < |init| {
            assert init[j] == sel[j];
          }
        }
        if HeldBy(s, init, c, x) {
          var j :| 0 <= j < |init| && x in CardsOf(OpenOf(s, init[j]), c);
          assert init[j] == sel[j];
        }
      }
    }
  }

  /** Every card in an open list of the snapshot. */
  ghost function AllOpen(s: Snapshot): set<Card> {
    set p, c, x | p in s && c in s[p] && x in s[p][c] :: x
  }

  /** A card in the list of colour `c` of a player of the snapshot is an open card. */
  lemma OpenCardOf(s: Snapshot, p: Player, c: Color, x: Card)
    requires p in s && x in CardsOf(s[p], c)
    ensures x in AllOpen(s)
  {
    assert c in s[p] && x in s[p][c];
  }

  class CardFlipper {
    const players: seq<Player>

    constructor (players: seq<Player>)
      ensures this.players == players
    {
      this.players := players;
    }

    /**
     * The flip over all colours in COLORS order. Each selected player's
     * cards of the colour become worth FLIPPED_CARD_VALUE and are recorded
     * under that player; every other open card keeps its value, and no
     * card changes list or owner. An empty player list is an error.
     */
    method FlipCards() returns (flipped: map<Player, seq<Card>>)
      requires players != []
      modifies AllOpen(SnapshotOf(players))`value
      ensures SnapshotOf(players) == old(SnapshotOf(players))
      ensures flipped == Record(SnapshotOf(players), players, COLORS)
      ensures forall x :: x in AllOpen(SnapshotOf(players)) ==>
                x.value == if InRecord(flipped, x) then FLIPPED_CARD_VALUE else old(x.value)
    {
      ghost var snap := SnapshotOf(players);
      flipped := map[];
      for k := 0 to |COLORS|
        invariant SnapshotOf(players) == snap
        invariant flipped == Record(snap, players, COLORS[..k])
        invariant forall x :: x in AllOpen(snap) ==>
                    x.value == if InRecord(flipped, x) then FLIPPED_CARD_VALUE else old(x.value)
      {
        var color := COLORS[k];
        var maxPlayers := FindPlayersWithMaxCards(color);
        SelectedExactly(snap, players, color);
        RecordSnoc(snap, players, COLORS, k);
        ghost var base := flipped;
        for j := 0 to |maxPlayers|
          invariant SnapshotOf(players) == snap
          invariant flipped == ColorRecord(snap, base, maxPlayers[..j], color)
          invariant forall x :: x in AllOpen(snap) ==>
                      x.value == if InRecord(flipped, x) then FLIPPED_CARD_VALUE else old(x.value)
        {
          var player := maxPlayers[j];
          var cardsToFlip := FlipColorOf(snap, player, color);
          ColorRecordSnoc(snap, base, maxPlayers, j, color);
          AddFlippedRecords(flipped, player, cardsToFlip);
          flipped := AddFlipped(flipped, player, cardsToFlip);
        }
        assert maxPlayers[..|maxPlayers|] == maxPlayers;
      }
      assert COLORS[..|COLORS|] == COLORS;
    }

    /** One selected player's cards of `color` are set to FLIPPED_CARD_VALUE and returned. */
    method FlipColorOf(ghost snap: Snapshot, player: Player, color: Color) returns (cardsToFlip: seq<Card>)
      requires player in players && snap == SnapshotOf(players)
      modifies AllOpen(snap)`value
      ensures SnapshotOf(players) == snap
      ensures cardsToFlip == CardsOf(OpenOf(snap, player), color)
      ensures forall x :: x in AllOpen(snap) ==>
                x.value == if x in cardsToFlip then FLIPPED_CARD_VALUE else old(x.value)
    {
      cardsToFlip := CardsOf(player.openCards, color);
      forall x | x in cardsToFlip ensures x in AllOpen(snap) {
        OpenCardOf(snap, player, color, x);
      }
      FlipList(cardsToFlip);
    }

    /** Each card of `cards` is set to FLIPPED_CARD_VALUE; no other card changes. */
    static method FlipList(cards: seq<Card>)
      modifies cards`value
      ensures forall j :: 0 <= j < |cards| ==> cards[j].value == FLIPPED_CARD_VALUE
    {
      for t := 0 to |cards|
        invariant forall j :: 0 <= j < t ==> cards[j].value == FLIPPED_CARD_VALUE
      {
        cards[t].SetValue(FLIPPED_CARD_VALUE);
      }
    }

    /**
     * The players holding the most cards of `color`, in list order; none
     * when every count is equal, and with two players none when their
     * counts differ by one. The first player is read, so the list must not
     * be empty.
     */
    method FindPlayersWithMaxCards(color: Color) returns (maxPlayers: seq<Player>)
      requires players != []
      ensures maxPlayers == Selected(SnapshotOf(players), players, color)
    {
      var firstPlayerCount := GetCardCountForColor(players[0], color);
      var max, allPlayersTied;
      max, maxPlayers, allPlayersTied := ScanPlayers(color, firstPlayerCount);
      ScanSelects(SnapshotOf(players), players, color);
      if allPlayersTied {
        return [];
      }
      if |players| == 2 {
        maxPlayers := ApplyTwoPlayerRule(color, maxPlayers);
      }
    }

    /**
     * The loop of `findPlayersWithMaxCards`: the highest count so far, the
     * players holding it, and whether every count so far equals the first
     * player's.
     */
    method ScanPlayers(color: Color, firstPlayerCount: nat) returns (max: nat, maxPlayers: seq<Player>, allPlayersTied: bool)
      ensures ScanState(max, maxPlayers, allPlayersTied) == Scan(SnapshotOf(players), players, color, firstPlayerCount, |players|)
    {
      ghost var snap := SnapshotOf(players);
      max := 0;
      maxPlayers := [];
      allPlayersTied := true;
      for i := 0 to |players|
        invariant ScanState(max, maxPlayers, allPlayersTied) == Scan(snap, players, color, firstPlayerCount, i)
      {
        var player := players[i];
        var count := GetCardCountForColor(player, color);
        ghost var next := ScanNext(ScanState(max, maxPlayers, allPlayersTied), player, count, firstPlayerCount);
        assert next == Scan(snap, players, color, firstPlayerCount, i + 1);
        if count > max {
          max := count;
          maxPlayers := [player];
        } else if count == max {
          maxPlayers := maxPlayers + [player];
        }
        if count != firstPlayerCount {
          allPlayersTied := false;
        }
        assert ScanState(max, maxPlayers, allPlayersTied) == next;
      }
    }

    /** `getCardCountForColor`: the size of the open list of `color`, zero when there is none. */
    method GetCardCountForColor(player: Player, color: Color) returns (n: nat)
      requires player in players
      ensures n == Count(SnapshotOf(players), player, color)
    {
      n := |CardsOf(player.openCards, color)|;
    }

    /** Clears the selection when two players' counts of `color` differ by exactly one. */
    method ApplyTwoPlayerRule(color: Color, maxPlayers: seq<Player>) returns (r: seq<Player>)
      requires |players| >= 2
      ensures var s := SnapshotOf(players);
              r == if TooClose(Count(s, players[0], color), Count(s, players[1], color)) then [] else maxPlayers
      ensures r == [] || r == maxPlayers
    {
      var p1, p2 := players[0], players[1];
      var a := GetCardCountForColor(p1, color);
      var b := GetCardCountForColor(p2, color);
      var difference := if a >= b then a - b else b - a;
      if difference < MIN_DIFFERENCE_FOR_TWO_PLAYERS && difference != 0 {
        return [];
      }
      return maxPlayers;
    }
  }

  /**
   * A property of `CardFlipper.FlipCards`, not an operation of the program:
   * flipping twice is flipping once. The second flip selects the same
   * players, since counts do not depend on values, and sets no value that
   * the first did not already set. It is a method because flipping changes
   * state, and it runs the operation twice.
   */
  method FlipTwice(flipper: CardFlipper) returns (first: map<Player, seq<Card>>, second: map<Player, seq<Card>>)
    requires flipper.players != []
    modifies AllOpen(SnapshotOf(flipper.players))`value
    ensures second == first
    ensures forall x :: x in AllOpen(SnapshotOf(flipper.players)) ==>
              x.value == if InRecord(first, x) then FLIPPED_CARD_VALUE else old(x.value)
  {
    first := flipper.FlipCards();
    second := flipper.FlipCards();
  }
}
