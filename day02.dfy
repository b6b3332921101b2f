/** Day 2: a game is a list of rounds, each showing some red, green and blue
    cubes; part 1 sums the ids of games possible with 12 red, 13 green and
    14 blue cubes, part 2 sums the products of each game's per-colour maxima. */
module Day02 {

  datatype Round = Round(red: nat, green: nat, blue: nat)

  datatype Game = Game(id: nat, rounds: seq<Round>)

  function Max(a: nat, b: nat): nat {
    if a >= b then a else b
  }

  /** The largest number of cubes of each colour shown in any round, 0 for a colour never shown. */
  function Maxima(rounds: seq<Round>): (m: (nat, nat, nat))
    ensures forall k | 0 <= k < |rounds| ::
      rounds[k].red <= m.0 && rounds[k].green <= m.1 && rounds[k].blue <= m.2
    ensures m.0 == 0 || exists k | 0 <= k < |rounds| :: rounds[k].red == m.0
    ensures m.1 == 0 || exists k | 0 <= k < |rounds| :: rounds[k].green == m.1
    ensures m.2 == 0 || exists k | 0 <= k < |rounds| :: rounds[k].blue == m.2
  {
    if rounds == [] then (0, 0, 0)
    else
      var init, last := rounds[..|rounds| - 1], rounds[|rounds| - 1];
      var prev := Maxima(init);
      assert forall k | 0 <= k < |init| :: init[k] == rounds[k];
      (Max(last.red, prev.0), Max(last.green, prev.1), Max(last.blue, prev.2))
  }

  /** `maxs`: one pass over the rounds, keeping a running maximum per colour. */
  method Maxs(game: Game) returns (m: (nat, nat, nat))
    ensures m == Maxima(game.rounds)
  {
    var red, green, blue := 0, 0, 0;
    for k := 0 to |game.rounds|
      invariant (red, green, blue) == Maxima(game.rounds[..k])
    {
      assert game.rounds[..k + 1][..k] == game.rounds[..k];
      var round := game.rounds[k];
      red := Max(round.red, red);
      green := Max(round.green, green);
      blue := Max(round.blue, blue);
    }
    assert game.rounds[..|game.rounds|] == game.rounds;
    m := (red, green, blue);
  }

  predicate WithinBag(m: (nat, nat, nat)) {
    m.0 <= 12 && m.1 <= 13 && m.2 <= 14
  }

  /** Checking the maxima against the bag is checking every round against it. */
  lemma PossibleIffEveryRound(rounds: seq<Round>)
    ensures WithinBag(Maxima(rounds)) <==>
      forall k | 0 <= k < |rounds| :: WithinBag((rounds[k].red, rounds[k].green, rounds[k].blue))
  {
    var m := Maxima(rounds);
    if !WithinBag(m) {
      if m.0 > 12 {
        var k :| 0 <= k < |rounds| && rounds[k].red == m.0;
        assert !WithinBag((rounds[k].red, rounds[k].green, rounds[k].blue));
      } else if m.1 > 13 {
        var k :| 0 <= k < |rounds| && rounds[k].green == m.1;
        assert !WithinBag((rounds[k].red, rounds[k].green, rounds[k].blue));
      } else {
        var k :| 0 <= k < |rounds| && rounds[k].blue == m.2;
        assert !WithinBag((rounds[k].red, rounds[k].green, rounds[k].blue));
      }
    }
  }

  /** The sum of the ids of the possible games. */
  function PossibleIds(games: seq<Game>): nat {
    if games == [] then 0
    else
      var g := games[|games| - 1];
      PossibleIds(games[..|games| - 1]) + if WithinBag(Maxima(g.rounds)) then g.id else 0
  }

  /** `part1`: add a game's id when its maxima fit the bag. */
  method Part1(games: seq<Game>) returns (result: nat)
    ensures result == PossibleIds(games)
  {
    result := 0;
    for k := 0 to |games|
      invariant result == PossibleIds(games[..k])
    {
      assert games[..k + 1][..k] == games[..k];
      var m := Maxs(games[k]);
      if m.0 <= 12 && m.1 <= 13 && m.2 <= 14 {
        result := result + games[k].id;
      }
    }
    assert games[..|games|] == games;
  }

  function Power(m: (nat, nat, nat)): nat {
    m.0 * m.1 * m.2
  }

  /** A colour that no round shows makes the game's power 0. */
  lemma PowerZeroWhenColourMissing(rounds: seq<Round>)
    requires (forall k | 0 <= k < |rounds| :: rounds[k].red == 0)
          || (forall k | 0 <= k < |rounds| :: rounds[k].green == 0)
          || (forall k | 0 <= k < |rounds| :: rounds[k].blue == 0)
    ensures Power(Maxima(rounds)) == 0
  {
    var m := Maxima(rounds);
    if forall k | 0 <= k < |rounds| :: rounds[k].red == 0 {
      assert m.0 == 0;
    } else if forall k | 0 <= k < |rounds| :: rounds[k].green == 0 {
      assert m.1 == 0;
    } else {
      assert m.2 == 0;
    }
  }

  function PowerSum(games: seq<Game>): nat {
    if games == [] then 0
    else PowerSum(games[..|games| - 1]) + Power(Maxima(games[|games| - 1].rounds))
  }

  /** `part2`: add the product of each game's maxima. */
  method Part2(games: seq<Game>) returns (result: nat)
    ensures result == PowerSum(games)
  {
    result := 0;
    for k := 0 to |games|
      invariant result == PowerSum(games[..k])
    {
      assert games[..k + 1][..k] == games[..k];
      var m := Maxs(games[k]);
      var power := m.0 * m.1 * m.2;
      assert power == Power(Maxima(games[k].rounds));
      result := result + power;
    }
    assert games[..|games|] == games;
  }
}
