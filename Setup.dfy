/**
 * Player creation and name validation of src/game/setup/PlayerSetup.java.
 * A name is accepted when it is 3 to 10 characters long, holds a letter, is
 * not a short name starting with "bot" (any case) and is not taken; names
 * are compared case-insensitively, and computer players are named "Bot 1",
 * "Bot 2", ... in creation order. Letters and case are the ASCII ones.
 */
module Setup {
  import opened Wrappers
  import opened Players

  /** `isValidLength`: 3 to 10 characters. */
  predicate IsValidLength(name: string) {
    3 <= |name| <= 10
  }

  /** A letter, as `Character.isLetter` decides it for ASCII characters. */
  predicate IsLetter(c: char) {
    'a' <= c <= 'z' || 'A' <= c <= 'Z'
  }

  /** Some character of `name` is a letter. */
  predicate HasLetter(name: string) {
    exists i :: 0 <= i < |name| && IsLetter(name[i])
  }

  /** `containLetter`: scans the name and stops at the first letter. */
  method ContainLetter(name: string) returns (found: bool)
    ensures found <==> HasLetter(name)
  {
    for i := 0 to |name|
      invariant forall j :: 0 <= j < i ==> !IsLetter(name[j])
    {
      if IsLetter(name[i]) {
        return true;
      }
    }
    return false;
  }

  /** A character in lower case. */
  function LowerChar(c: char): char {
    if 'A' <= c <= 'Z' then (c as int - 'A' as int + 'a' as int) as char else c
  }

  /** `toLowerCase`. */
  function ToLower(s: string): string {
    seq(|s|, i requires 0 <= i < |s| => LowerChar(s[i]))
  }

  /** Lower-casing keeps the length, leaves no capital letter, and a second time changes nothing. */
  lemma ToLowerMeaning(s: string)
    ensures |ToLower(s)| == |s|
    ensures forall i :: 0 <= i < |s| ==> !('A' <= ToLower(s)[i] <= 'Z')
    ensures ToLower(ToLower(s)) == ToLower(s)
  {
  }

  /** `s` begins with `prefix`. */
  predicate StartsWith(s: string, prefix: string) {
    |prefix| <= |s| && s[..|prefix|] == prefix
  }

  /** `checkNameWithBot`: the name starts with "bot" in any case and is shorter than 6. */
  predicate CheckNameWithBot(name: string) {
    StartsWith(ToLower(name), "bot") && |name| < 6
  }

  /** The outcome of `validateName`: accepted, or the exception it throws. */
  datatype NameCheck = Accepted | BadLength | NoLetter | BotPrefix | Taken

  /** The four checks in their order; the first that fails decides. */
  function Verdict(name: string, names: set<string>): NameCheck {
    if !IsValidLength(name) then BadLength
    else if !HasLetter(name) then NoLetter
    else if CheckNameWithBot(name) then BotPrefix
    else if ToLower(name) in names then Taken
    else Accepted
  }

  /** `validateName`: runs the checks in order and reports the first failure. */
  method ValidateName(name: string, names: set<string>) returns (r: NameCheck)
    ensures r == Verdict(name, names)
  {
    if !IsValidLength(name) {
      return BadLength;
    }
    var letter := ContainLetter(name);
    if !letter {
      return NoLetter;
    }
    if CheckNameWithBot(name) {
      return BotPrefix;
    }
    if ToLower(name) in names {
      return Taken;
    }
    return Accepted;
  }

  /** A name is accepted exactly when it passes all four checks. */
  lemma VerdictAccepted(name: string, names: set<string>)
    ensures Verdict(name, names) == Accepted <==>
              && 3 <= |name| <= 10
              && (exists i :: 0 <= i < |name| && IsLetter(name[i]))
              && !(|name| < 6 && |name| >= 3 && ToLower(name)[..3] == "bot")
              && ToLower(name) !in names
  {
    ToLowerMeaning(name);
  }

  /** Once a name is accepted and stored, any name equal to it up to case is rejected. */
  lemma TakenAfterAdd(name: string, other: string, names: set<string>)
    requires ToLower(other) == ToLower(name)
    ensures Verdict(other, names + {ToLower(name)}) != Accepted
  {
  }

  /** The decimal digit `d`. */
  function Digit(d: nat): char
    requires d < 10
  {
    ('0' as int + d) as char
  }

  /** `n` in decimal, as string concatenation writes an `int`. */
  function NatToString(n: nat): (s: string)
    ensures |s| >= 1
  {
    if n < 10 then [Digit(n)] else NatToString(n / 10) + [Digit(n % 10)]
  }

  /** The name of the `k`-th computer player. */
  function BotName(k: nat): string {
    "Bot " + NatToString(k)
  }

  /**
   * A single-digit bot name is five characters, so any name equal to it up
   * to case falls under the "bot" rule: no human can take it.
   */
  lemma BotNameReserved(k: nat, name: string, names: set<string>)
    requires k < 10 && ToLower(name) == ToLower(BotName(k))
    ensures Verdict(name, names) == BotPrefix
  {
    ToLowerMeaning(name);
    ToLowerMeaning(BotName(k));
    assert BotName(k) == ['B', 'o', 't', ' ', Digit(k)];
    assert ToLower(name)[..3] == ToLower(BotName(k))[..3] == "bot";
    assert HasLetter(name) by {
      assert IsLetter(name[0]) by {
        assert ToLower(BotName(k))[0] == LowerChar('B') == 'b';
        assert ToLower(name)[0] == LowerChar(name[0]);
      }
    }
  }

  /** Different single-digit bot names differ even up to case. */
  lemma BotNamesDiffer(k: nat, k': nat)
    requires k < 10 && k' < 10 && k != k'
    ensures ToLower(BotName(k)) != ToLower(BotName(k'))
  {
    assert ToLower(BotName(k))[4] == Digit(k);
    assert ToLower(BotName(k'))[4] == Digit(k');
  }

  /** The first attempt that passes validation, as `handleHumanPlayer`'s loop finds it. */
  function FirstAccepted(attempts: seq<string>, names: set<string>): Option<string> {
    if attempts == [] then None
    else if Verdict(attempts[0], names) == Accepted then Some(attempts[0])
    else FirstAccepted(attempts[1..], names)
  }

  /** A name `handleHumanPlayer` settles on is accepted and is one of the attempts. */
  lemma {:induction false} FirstAcceptedSound(attempts: seq<string>, names: set<string>)
    ensures FirstAccepted(attempts, names).Some? ==>
              && Verdict(FirstAccepted(attempts, names).value, names) == Accepted
              && FirstAccepted(attempts, names).value in attempts
  {
    if attempts != [] && Verdict(attempts[0], names) != Accepted {
      FirstAcceptedSound(attempts[1..], names);
    }
  }

  /** `handleHumanPlayer`'s loop: asks for names until one is accepted. */
  method ReadName(attempts: seq<string>, names: set<string>) returns (name: Option<string>)
    ensures name == FirstAccepted(attempts, names)
  {
    var i := 0;
    while i < |attempts|
      invariant 0 <= i <= |attempts|
      invariant FirstAccepted(attempts[i..], names) == FirstAccepted(attempts, names)
    {
      var check := ValidateName(attempts[i], names);
      if check == Accepted {
        return Some(attempts[i]);
      }
      assert attempts[i..][1..] == attempts[i + 1..];
      i := i + 1;
    }
    return None;
  }

  /** A player as `createPlayers` fixes it: its name and whether it is human. */
  datatype Seat = Seat(name: string, human: bool)

  /** The name and kind of each player of `ps`, in order. */
  function SeatsOf(ps: seq<Player>): (r: seq<Seat>)
    ensures |r| == |ps|
    ensures forall j :: 0 <= j < |ps| ==> r[j].name == ps[j].name && r[j].human == ps[j].human
  {
    seq(|ps|, j requires 0 <= j < |ps| => Seat(ps[j].name, ps[j].human))
  }

  /** The lower-cased names of `ps`, as `createPlayers` stores them. */
  function NamesOf(ps: seq<Seat>): set<string> {
    if ps == [] then {} else NamesOf(ps[..|ps| - 1]) + {ToLower(ps[|ps| - 1].name)}
  }

  /** The number of computer players in `ps`. */
  function BotCount(ps: seq<Seat>): (n: nat)
    ensures n <= |ps|
  {
    if ps == [] then 0 else BotCount(ps[..|ps| - 1]) + (if ps[|ps| - 1].human then 0 else 1)
  }

  /** The stored names are exactly the lower-cased names of the players. */
  lemma {:induction false} NamesOfMeaning(ps: seq<Seat>)
    ensures forall x :: x in NamesOf(ps) <==> exists j :: 0 <= j < |ps| && ToLower(ps[j].name) == x
  {
    if ps != [] {
      var init := ps[..|ps| - 1];
      NamesOfMeaning(init);
      forall x | x in NamesOf(ps)
        ensures exists j :: 0 <= j < |ps| && ToLower(ps[j].name) == x
      {
        if x in NamesOf(init) {
          var j :| 0 <= j < |init| && ToLower(init[j].name) == x;
          assert ps[j] == init[j];
        }
      }
      forall x, j | 0 <= j < |ps| && ToLower(ps[j].name) == x
        ensures x in NamesOf(ps)
      {
        if j < |init| {
          assert ps[j] == init[j];
        }
      }
    }
  }

  /** A list with a computer player holds a player who is not human. */
  lemma {:induction false} BotCountMeaning(ps: seq<Seat>)
    ensures BotCount(ps) < |ps| <==> exists j :: 0 <= j < |ps| && ps[j].human
  {
    if ps != [] {
      var init := ps[..|ps| - 1];
      BotCountMeaning(init);
      if exists j :: 0 <= j < |init| && init[j].human {
        var j :| 0 <= j < |init| && init[j].human;
        assert ps[j] == init[j];
      }
      if exists j :: 0 <= j < |ps| && ps[j].human {
        var j :| 0 <= j < |ps| && ps[j].human;
        if j < |init| {
          assert init[j] == ps[j];
        }
      }
    }
  }

  /** No two players share a name up to case. */
  predicate DistinctNames(ps: seq<Seat>) {
    forall a, b :: 0 <= a < b < |ps| ==> ToLower(ps[a].name) != ToLower(ps[b].name)
  }

  /** The `k`-th computer player of the list is named "Bot k". */
  predicate BotsNamed(ps: seq<Seat>) {
    forall j :: 0 <= j < |ps| && !ps[j].human ==> ps[j].name == BotName(BotCount(ps[..j]) + 1)
  }

  /** Every human's name was accepted against the names stored before it. */
  predicate HumansAccepted(ps: seq<Seat>) {
    forall j :: 0 <= j < |ps| && ps[j].human ==> Verdict(ps[j].name, NamesOf(ps[..j])) == Accepted
  }

  /** What `createPlayers` keeps true of its list and its name set. */
  predicate Created(ps: seq<Seat>, names: set<string>) {
    && names == NamesOf(ps)
    && BotsNamed(ps)
    && HumansAccepted(ps)
    && (BotCount(ps) < 10 ==> DistinctNames(ps))
  }

  /** Appending a player leaves every prefix of the old list as it was. */
  lemma SnocPrefixes(ps: seq<Seat>, p: Seat)
    ensures forall j :: 0 <= j <= |ps| ==> (ps + [p])[..j] == ps[..j]
    ensures (ps + [p])[..|ps|] == ps
  {
    forall j | 0 <= j <= |ps|
      ensures (ps + [p])[..j] == ps[..j]
    {
    }
  }

  /** Appending a computer player under the next bot name, or a human, keeps the bot names. */
  lemma BotsNamedSnoc(ps: seq<Seat>, p: Seat)
    requires BotsNamed(ps)
    requires !p.human ==> p.name == BotName(BotCount(ps) + 1)
    ensures BotsNamed(ps + [p])
  {
    SnocPrefixes(ps, p);
  }

  /** Appending a human accepted against the stored names, or a computer, keeps the humans accepted. */
  lemma HumansAcceptedSnoc(ps: seq<Seat>, p: Seat)
    requires HumansAccepted(ps)
    requires p.human ==> Verdict(p.name, NamesOf(ps)) == Accepted
    ensures HumansAccepted(ps + [p])
  {
    SnocPrefixes(ps, p);
  }

  /** Appending a player whose name differs from every name up to case keeps the names distinct. */
  lemma DistinctSnoc(ps: seq<Seat>, p: Seat)
    requires DistinctNames(ps)
    requires forall a :: 0 <= a < |ps| ==> ToLower(ps[a].name) != ToLower(p.name)
    ensures DistinctNames(ps + [p])
  {
  }

  /** The stored names grow by the new player's lower-cased name. */
  lemma NamesOfSnoc(ps: seq<Seat>, p: Seat)
    ensures NamesOf(ps + [p]) == NamesOf(ps) + {ToLower(p.name)}
    ensures BotCount(ps + [p]) == BotCount(ps) + (if p.human then 0 else 1)
  {
    assert (ps + [p])[..|ps|] == ps;
  }

  /** Adding a human whose name was accepted keeps the list well formed. */
  lemma AddHuman(ps: seq<Seat>, names: set<string>, p: Seat)
    requires Created(ps, names) && p.human && Verdict(p.name, names) == Accepted
    ensures Created(ps + [p], names + {ToLower(p.name)})
  {
    NamesOfSnoc(ps, p);
    BotsNamedSnoc(ps, p);
    HumansAcceptedSnoc(ps, p);
    if BotCount(ps) < 10 {
      NamesOfMeaning(ps);
      DistinctSnoc(ps, p);
    }
  }

  /** The next bot name differs up to case from every name in a list of fewer than nine bots. */
  lemma BotNameFresh(ps: seq<Seat>, k: nat)
    requires BotsNamed(ps) && HumansAccepted(ps)
    requires k == BotCount(ps) + 1 && k < 10
    ensures forall a :: 0 <= a < |ps| ==> ToLower(ps[a].name) != ToLower(BotName(k))
  {
    forall a | 0 <= a < |ps|
      ensures ToLower(ps[a].name) != ToLower(BotName(k))
    {
      if ps[a].human {
        if ToLower(ps[a].name) == ToLower(BotName(k)) {
          BotNameReserved(k, ps[a].name, NamesOf(ps[..a]));
        }
      } else {
        BotCountPrefix(ps, a);
        BotNamesDiffer(BotCount(ps[..a]) + 1, k);
      }
    }
  }

  /** Adding the next computer player under its bot name keeps the list well formed. */
  lemma AddBot(ps: seq<Seat>, names: set<string>, p: Seat)
    requires Created(ps, names) && !p.human && p.name == BotName(BotCount(ps) + 1)
    ensures Created(ps + [p], names + {ToLower(p.name)})
  {
    NamesOfSnoc(ps, p);
    BotsNamedSnoc(ps, p);
    HumansAcceptedSnoc(ps, p);
    if BotCount(ps) + 1 < 10 {
      BotNameFresh(ps, BotCount(ps) + 1);
      DistinctSnoc(ps, p);
    }
  }

  /** Fewer computer players come before position `a` than in the whole list. */
  lemma BotCountPrefix(ps: seq<Seat>, a: nat)
    requires a < |ps| && !ps[a].human
    ensures BotCount(ps[..a]) < BotCount(ps)
  {
    BotCountMonotone(ps, a + 1);
    assert ps[..a + 1][..a] == ps[..a];
  }

  /** Extending a list never lowers its number of computer players. */
  lemma {:induction false} BotCountMonotone(ps: seq<Seat>, i: nat)
    requires i <= |ps|
    ensures BotCount(ps[..i]) <= BotCount(ps)
    ensures 0 < i && !ps[i - 1].human ==> BotCount(ps[..i - 1]) < BotCount(ps[..i])
    decreases |ps| - i
  {
    if 0 < i {
      assert ps[..i][..i - 1] == ps[..i - 1];
    }
    if i < |ps| {
      BotCountMonotone(ps, i + 1);
      assert ps[..i + 1][..i] == ps[..i];
    } else {
      assert ps[..i] == ps;
    }
  }

  /** The choice `getPlayerType` reads for a slot: a human with the names typed, or a computer. */
  datatype Choice = HumanChoice(attempts: seq<string>) | ComputerChoice

  /** `rest` with `s` in front, or `None` when `rest` gave up. */
  function Prepend(s: Seat, rest: Option<seq<Seat>>): (r: Option<seq<Seat>>)
    ensures r.Some? <==> rest.Some?
    ensures r.Some? ==> |r.value| == |rest.value| + 1 && r.value[0] == s && r.value[1..] == rest.value
  {
    if rest.None? then None else Some([s] + rest.value)
  }

  /** `rest` after the seats `done`, or `None` when `rest` gave up. */
  function Append(done: seq<Seat>, rest: Option<seq<Seat>>): (r: Option<seq<Seat>>)
    ensures r.Some? <==> rest.Some?
    ensures r.Some? ==> |r.value| == |done| + |rest.value|
    ensures r.Some? ==> r.value[..|done|] == done && r.value[|done|..] == rest.value
  {
    if rest.None? then None else Some(done + rest.value)
  }

  /** Putting `s` in front of what is left is putting it after the seats already filled. */
  lemma AppendPrepend(done: seq<Seat>, s: Seat, rest: Option<seq<Seat>>)
    ensures Append(done, Prepend(s, rest)) == Append(done + [s], rest)
  {
    if rest.Some? {
      assert done + ([s] + rest.value) == (done + [s]) + rest.value;
    }
  }

  /**
   * The seats `createPlayers`' loop still adds from slot `i` on, given the
   * choices left, the stored lower-cased names, the humans so far and the
   * next bot number: a human takes the first accepted name; a computer takes
   * the next bot name, unless it was chosen for the last slot while no human
   * exists, when the slot is asked again. `None` when the choices run out
   * or a human's attempts hold no accepted name.
   */
  function Fill(numPlayers: int, choices: seq<Choice>, i: int, names: set<string>, humanCount: nat, botIndex: nat): Option<seq<Seat>>
    decreases |choices|
  {
    if i > numPlayers then Some([])
    else if choices == [] then None
    else match choices[0]
      case HumanChoice(attempts) =>
        (match FirstAccepted(attempts, names)
          case None => None
          case Some(name) =>
            Prepend(Seat(name, true), Fill(numPlayers, choices[1..], i + 1, names + {ToLower(name)}, humanCount + 1, botIndex)))
      case ComputerChoice =>
        if humanCount == 0 && i == numPlayers then Fill(numPlayers, choices[1..], i, names, humanCount, botIndex)
        else Prepend(Seat(BotName(botIndex), false),
                     Fill(numPlayers, choices[1..], i + 1, names + {ToLower(BotName(botIndex))}, humanCount, botIndex + 1))
  }

  /** The players `createPlayers` makes from `numPlayers` and the choices read, in order. */
  function CreatedSeats(numPlayers: int, choices: seq<Choice>): Option<seq<Seat>> {
    Fill(numPlayers, choices, 1, {}, 0, 1)
  }

  /** What `createPlayers`' loop keeps true of the seats `done` before slot `i`. */
  predicate LoopState(numPlayers: int, i: int, names: set<string>, humanCount: nat, botIndex: nat, done: seq<Seat>) {
    && |done| == i - 1 && (i == 1 || i <= numPlayers + 1)
    && Created(done, names)
    && humanCount == |done| - BotCount(done) && botIndex == BotCount(done) + 1
    && (numPlayers > 0 && i == numPlayers + 1 ==> humanCount > 0)
  }

  /** A finished list: `numPlayers` seats, a human among them, well formed, distinct names up to ten. */
  predicate Complete(numPlayers: int, ps: seq<Seat>) {
    && |ps| == (if numPlayers > 0 then numPlayers else 0)
    && (numPlayers > 0 ==> exists j :: 0 <= j < |ps| && ps[j].human)
    && BotsNamed(ps)
    && HumansAccepted(ps)
    && (numPlayers <= 10 ==> DistinctNames(ps))
  }

  /** Leaving the loop after the last slot leaves a finished list. */
  lemma LoopDone(numPlayers: int, i: int, names: set<string>, humanCount: nat, botIndex: nat, done: seq<Seat>)
    requires LoopState(numPlayers, i, names, humanCount, botIndex, done) && i > numPlayers
    ensures Complete(numPlayers, done)
  {
    BotCountMeaning(done);
  }

  /** Seating a human under an accepted name keeps the loop's state. */
  lemma HumanStep(numPlayers: int, i: int, names: set<string>, humanCount: nat, botIndex: nat, done: seq<Seat>, name: string)
    requires LoopState(numPlayers, i, names, humanCount, botIndex, done) && i <= numPlayers
    requires Verdict(name, names) == Accepted
    ensures LoopState(numPlayers, i + 1, names + {ToLower(name)}, humanCount + 1, botIndex, done + [Seat(name, true)])
  {
    AddHuman(done, names, Seat(name, true));
    NamesOfSnoc(done, Seat(name, true));
  }

  /** Seating the next bot keeps the loop's state, unless it would fill the last slot with no human. */
  lemma BotStep(numPlayers: int, i: int, names: set<string>, humanCount: nat, botIndex: nat, done: seq<Seat>)
    requires LoopState(numPlayers, i, names, humanCount, botIndex, done) && i <= numPlayers
    requires !(humanCount == 0 && i == numPlayers)
    ensures LoopState(numPlayers, i + 1, names + {ToLower(BotName(botIndex))}, humanCount, botIndex + 1, done + [Seat(BotName(botIndex), false)])
  {
    AddBot(done, names, Seat(BotName(botIndex), false));
    NamesOfSnoc(done, Seat(BotName(botIndex), false));
  }

  /** Seating `s` in front of what the loop still adds finishes the list when seating `s` first does. */
  lemma CompleteSnoc(numPlayers: int, done: seq<Seat>, s: Seat, whole: Option<seq<Seat>>, rest: Option<seq<Seat>>)
    requires whole == Prepend(s, rest)
    requires rest.Some? ==> Complete(numPlayers, (done + [s]) + rest.value)
    ensures whole.Some? ==> Complete(numPlayers, done + whole.value)
  {
    if rest.Some? {
      assert (done + [s]) + rest.value == done + whole.value;
    }
  }

  /** What the loop still adds after `done` gives a finished list, if it does not give up. */
  predicate FillsFrom(numPlayers: int, choices: seq<Choice>, i: int, names: set<string>, humanCount: nat, botIndex: nat, done: seq<Seat>) {
    var r := Fill(numPlayers, choices, i, names, humanCount, botIndex);
    r.Some? ==> Complete(numPlayers, done + r.value)
  }

  /** Whatever the loop still adds to a prefix in the loop's state gives a finished list. */
  lemma {:induction false} FillCreated(numPlayers: int, choices: seq<Choice>, i: int, names: set<string>, humanCount: nat, botIndex: nat, done: seq<Seat>)
    requires LoopState(numPlayers, i, names, humanCount, botIndex, done)
    ensures FillsFrom(numPlayers, choices, i, names, humanCount, botIndex, done)
    decreases |choices|, 1
  {
    if i > numPlayers {
      assert done + [] == done;
      LoopDone(numPlayers, i, names, humanCount, botIndex, done);
    } else if choices != [] {
      if choices[0].HumanChoice? {
        FillHuman(numPlayers, choices, i, names, humanCount, botIndex, done);
      } else if humanCount == 0 && i == numPlayers {
        FillRefused(numPlayers, choices, i, names, humanCount, botIndex, done);
      } else {
        FillBot(numPlayers, choices, i, names, humanCount, botIndex, done);
      }
    }
  }

  /** `FillCreated` for a slot where a human was chosen. */
  lemma {:induction false} FillHuman(numPlayers: int, choices: seq<Choice>, i: int, names: set<string>, humanCount: nat, botIndex: nat, done: seq<Seat>)
    requires LoopState(numPlayers, i, names, humanCount, botIndex, done)
    requires i <= numPlayers && choices != [] && choices[0].HumanChoice?
    ensures FillsFrom(numPlayers, choices, i, names, humanCount, botIndex, done)
    decreases |choices|, 0
  {
    var first := FirstAccepted(choices[0].attempts, names);
    if first.Some? {
      var s := Seat(first.value, true);
      var rest := Fill(numPlayers, choices[1..], i + 1, names + {ToLower(first.value)}, humanCount + 1, botIndex);
      assert Fill(numPlayers, choices, i, names, humanCount, botIndex) == Prepend(s, rest);
      assert LoopState(numPlayers, i + 1, names + {ToLower(first.value)}, humanCount + 1, botIndex, done + [s]) by {
        FirstAcceptedSound(choices[0].attempts, names);
        HumanStep(numPlayers, i, names, humanCount, botIndex, done, first.value);
      }
      FillCreated(numPlayers, choices[1..], i + 1, names + {ToLower(first.value)}, humanCount + 1, botIndex, done + [s]);
      CompleteSnoc(numPlayers, done, s, Fill(numPlayers, choices, i, names, humanCount, botIndex), rest);
    }
  }

  /** `FillCreated` for a computer chosen for the last slot while no human exists: the slot is asked again. */
  lemma {:induction false} FillRefused(numPlayers: int, choices: seq<Choice>, i: int, names: set<string>, humanCount: nat, botIndex: nat, done: seq<Seat>)
    requires LoopState(numPlayers, i, names, humanCount, botIndex, done)
    requires i == numPlayers && humanCount == 0 && choices != [] && choices[0].ComputerChoice?
    ensures FillsFrom(numPlayers, choices, i, names, humanCount, botIndex, done)
    decreases |choices|, 0
  {
    assert Fill(numPlayers, choices, i, names, humanCount, botIndex) == Fill(numPlayers, choices[1..], i, names, humanCount, botIndex);
    FillCreated(numPlayers, choices[1..], i, names, humanCount, botIndex, done);
  }

  /** A computer that is not refused is seated under the next bot name. */
  lemma FillBotUnfold(numPlayers: int, choices: seq<Choice>, i: int, names: set<string>, humanCount: nat, botIndex: nat)
    requires i <= numPlayers && !(humanCount == 0 && i == numPlayers) && choices != [] && choices[0].ComputerChoice?
    ensures Fill(numPlayers, choices, i, names, humanCount, botIndex)
         == Prepend(Seat(BotName(botIndex), false),
                    Fill(numPlayers, choices[1..], i + 1, names + {ToLower(BotName(botIndex))}, humanCount, botIndex + 1))
  {
  }

  /** `FillCreated` for a slot where the next bot is seated. */
  lemma {:induction false} FillBot(numPlayers: int, choices: seq<Choice>, i: int, names: set<string>, humanCount: nat, botIndex: nat, done: seq<Seat>)
    requires LoopState(numPlayers, i, names, humanCount, botIndex, done)
    requires i <= numPlayers && !(humanCount == 0 && i == numPlayers) && choices != [] && choices[0].ComputerChoice?
    ensures FillsFrom(numPlayers, choices, i, names, humanCount, botIndex, done)
    decreases |choices|, 0
  {
    var s := Seat(BotName(botIndex), false);
    var rest := Fill(numPlayers, choices[1..], i + 1, names + {ToLower(BotName(botIndex))}, humanCount, botIndex + 1);
    FillBotUnfold(numPlayers, choices, i, names, humanCount, botIndex);
    assert LoopState(numPlayers, i + 1, names + {ToLower(BotName(botIndex))}, humanCount, botIndex + 1, done + [s]) by {
      BotStep(numPlayers, i, names, humanCount, botIndex, done);
    }
    FillCreated(numPlayers, choices[1..], i + 1, names + {ToLower(BotName(botIndex))}, humanCount, botIndex + 1, done + [s]);
    CompleteSnoc(numPlayers, done, s, Fill(numPlayers, choices, i, names, humanCount, botIndex), rest);
  }

  /**
   * The players `createPlayers` makes: `numPlayers` of them (none for a
   * count below one), at least one human, the k-th computer named "Bot k",
   * every human under a name accepted against those before it, and no two
   * names equal up to case when there are at most ten players.
   */
  lemma CreatedSeatsMeaning(numPlayers: int, choices: seq<Choice>)
    ensures CreatedSeats(numPlayers, choices).Some? ==> Complete(numPlayers, CreatedSeats(numPlayers, choices).value)
  {
    FillCreated(numPlayers, choices, 1, {}, 0, 1, []);
    if CreatedSeats(numPlayers, choices).Some? {
      assert [] + CreatedSeats(numPlayers, choices).value == CreatedSeats(numPlayers, choices).value;
    }
  }

  /**
   * Two slots, a computer chosen twice and then a human: the first computer
   * becomes "Bot 1", the second is refused for the last slot, and the human
   * takes it.
   */
  lemma CreatedSeatsRetry()
    ensures CreatedSeats(2, [ComputerChoice, ComputerChoice, HumanChoice(["Ann"])])
         == Some([Seat("Bot 1", false), Seat("Ann", true)])
  {
    var cs := [ComputerChoice, ComputerChoice, HumanChoice(["Ann"])];
    assert BotName(1) == "Bot 1" by {
      assert NatToString(1) == [Digit(1)] == "1";
    }
    var names := {ToLower("Bot 1")};
    assert ToLower("Ann") == "ann" by {
      assert LowerChar('A') == 'a';
    }
    assert Verdict("Ann", names) == Accepted by {
      assert IsLetter("Ann"[0]);
      assert HasLetter("Ann");
      assert "ann"[..3] == "ann" != "bot";
      assert !CheckNameWithBot("Ann");
      assert |ToLower("Bot 1")| == 5;
      assert "ann" !in names;
    }
    assert FirstAccepted(["Ann"], names) == Some("Ann");
    assert cs[1..][1..] == cs[2..] == [HumanChoice(["Ann"])];
    assert cs[2..][0] == HumanChoice(["Ann"]);
    assert Fill(2, cs[2..][1..], 3, names + {ToLower("Ann")}, 1, 2) == Some([]);
    assert [Seat("Ann", true)] + [] == [Seat("Ann", true)];
    assert Fill(2, cs[2..], 2, names, 0, 2) == Some([Seat("Ann", true)]);
    assert Fill(2, cs[1..], 2, names, 0, 2) == Some([Seat("Ann", true)]);
    assert {} + {ToLower(BotName(1))} == names;
    assert Fill(2, cs, 1, {}, 0, 1) == Prepend(Seat("Bot 1", false), Fill(2, cs[1..], 2, names, 0, 2));
    assert [Seat("Bot 1", false)] + [Seat("Ann", true)] == [Seat("Bot 1", false), Seat("Ann", true)];
  }

  /**
   * `createPlayers`: fills `numPlayers` slots in order from the choices
   * read, giving exactly the players `CreatedSeats` describes, and giving
   * up exactly when it does.
   */
  method CreatePlayers(numPlayers: int, choices: seq<Choice>) returns (result: Option<seq<Player>>)
    ensures result.Some? <==> CreatedSeats(numPlayers, choices).Some?
    ensures result.Some? ==> SeatsOf(result.value) == CreatedSeats(numPlayers, choices).value
    ensures result.Some? ==> Complete(numPlayers, SeatsOf(result.value))
  {
    var players: seq<Player> := [];
    var names: set<string> := {};
    var humanCount := 0;
    var botIndex := 1;
    var i := 1;
    var c := 0;
    while i <= numPlayers
      invariant 0 <= c <= |choices|
      invariant CreatedSeats(numPlayers, choices) == Append(SeatsOf(players), Fill(numPlayers, choices[c..], i, names, humanCount, botIndex))
      decreases |choices| - c
    {
      if c == |choices| {
        return None;
      }
      var choice := choices[c];
      assert choices[c..][1..] == choices[c + 1..];
      c := c + 1;
      if choice.HumanChoice? {
        var name := ReadName(choice.attempts, names);
        if name.None? {
          return None;
        }
        var p := new Player(name.value, true);
        AppendPrepend(SeatsOf(players), Seat(name.value, true), Fill(numPlayers, choices[c..], i + 1, names + {ToLower(name.value)}, humanCount + 1, botIndex));
        assert SeatsOf(players + [p]) == SeatsOf(players) + [Seat(name.value, true)];
        names := names + {ToLower(name.value)};
        players := players + [p];
        humanCount := humanCount + 1;
      } else if humanCount == 0 && i == numPlayers {
        i := i - 1;
      } else {
        var botName := BotName(botIndex);
        var p := new Player(botName, false);
        AppendPrepend(SeatsOf(players), Seat(botName, false), Fill(numPlayers, choices[c..], i + 1, names + {ToLower(botName)}, humanCount, botIndex + 1));
        assert SeatsOf(players + [p]) == SeatsOf(players) + [Seat(botName, false)];
        names := names + {ToLower(botName)};
        players := players + [p];
        botIndex := botIndex + 1;
      }
      i := i + 1;
    }
    assert SeatsOf(players) + [] == SeatsOf(players);
    CreatedSeatsMeaning(numPlayers, choices);
    return Some(players);
  }
}
