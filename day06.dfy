/** Day 6: boat races. Holding the button for i of a race's `time` units
    gives speed i for the remaining `time - i` units; a hold time wins when
    that travels farther than the record `distance`. */
module Day06 {
  import opened Wrappers
  import opened Text

  datatype Race = Race(time: nat, distance: nat)

  /** Distance travelled after holding the button for i units. */
  function Travel(time: nat, i: nat): nat
    requires i <= time
  {
    (time - i) * i
  }

  predicate Beats(race: Race, i: nat)
    requires i <= race.time
  {
    Travel(race.time, i) > race.distance
  }

  /** Reference count: the winning hold times in `[lo, hi)`, tried one by one. */
  function CountWins(race: Race, lo: nat, hi: nat): nat
    requires lo <= hi <= race.time
    decreases hi - lo
  {
    if lo == hi then 0 else (if Beats(race, lo) then 1 else 0) + CountWins(race, lo + 1, hi)
  }

  /** The number of hold times in `[0, time)` that beat the record. */
  function WinCount(race: Race): nat {
    CountWins(race, 0, race.time)
  }

  lemma {:induction false} CountBound(race: Race, lo: nat, hi: nat)
    requires lo <= hi <= race.time
    ensures CountWins(race, lo, hi) <= hi - lo
    decreases hi - lo
  {
    if lo < hi {
      CountBound(race, lo + 1, hi);
    }
  }

  /** At most one win per hold time; a race of length 0 has none. */
  lemma WinCountBound(race: Race)
    ensures WinCount(race) <= race.time
    ensures race.time == 0 ==> WinCount(race) == 0
  {
    CountBound(race, 0, race.time);
  }

  lemma {:induction false} CountAll(race: Race, lo: nat, hi: nat)
    requires lo <= hi <= race.time
    requires forall j | lo <= j < hi :: Beats(race, j)
    ensures CountWins(race, lo, hi) == hi - lo
    decreases hi - lo
  {
    if lo < hi {
      CountAll(race, lo + 1, hi);
    }
  }

  lemma {:induction false} CountNone(race: Race, lo: nat, hi: nat)
    requires lo <= hi <= race.time
    requires forall j | lo <= j < hi :: !Beats(race, j)
    ensures CountWins(race, lo, hi) == 0
    decreases hi - lo
  {
    if lo < hi {
      CountNone(race, lo + 1, hi);
    }
  }

  lemma {:induction false} CountSplit(race: Race, lo: nat, mid: nat, hi: nat)
    requires lo <= mid <= hi <= race.time
    ensures CountWins(race, lo, hi) == CountWins(race, lo, mid) + CountWins(race, mid, hi)
    decreases mid - lo
  {
    if lo < mid {
      CountSplit(race, lo + 1, mid, hi);
    }
  }

  /** One step up below the midpoint travels strictly farther. */
  lemma TravelRises(time: nat, i: nat)
    requires i + 1 <= time / 2
    ensures Travel(time, i) < Travel(time, i + 1)
  {
    var a := time - i - 1;
    assert Travel(time, i) == (a + 1) * i;
    assert Travel(time, i + 1) == a * (i + 1);
    assert (a + 1) * i == a * i + i;
    assert a * (i + 1) == a * i + a;
  }

  /** One step up from the midpoint on never travels farther. */
  lemma TravelFalls(time: nat, i: nat)
    requires time / 2 <= i < time
    ensures Travel(time, i + 1) <= Travel(time, i)
  {
    var a := time - i - 1;
    assert Travel(time, i) == (a + 1) * i;
    assert Travel(time, i + 1) == a * (i + 1);
    assert (a + 1) * i == a * i + i;
    assert a * (i + 1) == a * i + a;
  }

  /** If hold time i - 1 (below the midpoint) loses, so does every shorter one. */
  lemma {:induction false} LosesBelow(race: Race, i: nat, j: nat)
    requires 0 < i <= race.time / 2 && !Beats(race, i - 1) && j < i
    ensures !Beats(race, j)
    decreases i - j
  {
    if j < i - 1 {
      LosesBelow(race, i, j + 1);
      TravelRises(race.time, j);
    }
  }

  /** If hold time k (at or past the midpoint) loses, so does every longer one. */
  lemma {:induction false} LosesAbove(race: Race, k: nat, j: nat)
    requires race.time / 2 <= k <= j < race.time && !Beats(race, k)
    ensures !Beats(race, j)
    decreases j - k
  {
    if k < j {
      LosesAbove(race, k, j - 1);
      TravelFalls(race.time, j - 1);
    }
  }

  /** `Race::wins`: count down from the midpoint, then up from it, each run stopping at
      the first losing hold time. Because the distance rises up to the midpoint and falls
      after it, this counts every winning hold time in `[0, time)`. */
  method Wins(race: Race) returns (wins: nat)
    ensures wins == WinCount(race)
  {
    var center: nat := race.time / 2;
    wins := 0;
    var i: nat := center;
    while i > 0
      invariant i <= center
      invariant wins == center - i
      invariant forall j | i <= j < center :: Beats(race, j)
    {
      if (race.time - (i - 1)) * (i - 1) <= race.distance {
        break;
      }
      wins := wins + 1;
      i := i - 1;
    }
    assert i == 0 || !Beats(race, i - 1);
    forall j | 0 <= j < i ensures !Beats(race, j) {
      LosesBelow(race, i, j);
    }
    CountNone(race, 0, i);
    CountAll(race, i, center);
    CountSplit(race, 0, i, center);
    assert wins == CountWins(race, 0, center);

    var k: nat := center;
    while k < race.time
      invariant center <= k <= race.time
      invariant wins == CountWins(race, 0, center) + (k - center)
      invariant forall j | center <= j < k :: Beats(race, j)
    {
      if (race.time - k) * k <= race.distance {
        break;
      }
      wins := wins + 1;
      k := k + 1;
    }
    assert k == race.time || !Beats(race, k);
    forall j | k <= j < race.time ensures !Beats(race, j) {
      LosesAbove(race, k, j);
    }
    CountNone(race, k, race.time);
    CountAll(race, center, k);
    CountSplit(race, center, k, race.time);
    CountSplit(race, 0, center, race.time);
  }

  /** `part1`: the product of the races' win counts. */
  function Part1(races: seq<Race>): nat {
    if races == [] then 1 else Part1(races[..|races| - 1]) * WinCount(races[|races| - 1])
  }

  /** The product is 0 exactly when some race cannot be won; no races give 1. */
  lemma {:induction false} Part1Zero(races: seq<Race>)
    ensures races == [] ==> Part1(races) == 1
    ensures Part1(races) == 0 <==> exists k | 0 <= k < |races| :: WinCount(races[k]) == 0
  {
    if races != [] {
      var init := races[..|races| - 1];
      Part1Zero(init);
      assert forall k | 0 <= k < |init| :: init[k] == races[k];
      if Part1(races) == 0 {
        if Part1(init) == 0 {
          var k :| 0 <= k < |init| && WinCount(init[k]) == 0;
          assert WinCount(races[k]) == 0;
        } else {
          assert WinCount(races[|races| - 1]) == 0;
        }
      } else {
        assert Part1(init) != 0 && WinCount(races[|races| - 1]) != 0;
      }
    }
  }

  /** `part2`: the single race's win count. */
  method Part2(race: Race) returns (r: nat)
    ensures r == WinCount(race)
  {
    r := Wins(race);
  }

  predicate NoDigits(s: string) {
    forall k | 0 <= k < |s| :: !IsDigit(s[k])
  }

  /** The decimal-digit characters of a line, in order (the filter of `parse2`). */
  function DigitsOf(s: string): (d: string)
    ensures AllDigits(d) && |d| <= |s|
    ensures NoDigits(s) ==> d == []
  {
    if s == [] then []
    else (if IsDigit(s[0]) then [s[0]] else []) + DigitsOf(s[1..])
  }

  /** The filter works piece by piece, keeping digits and dropping everything else. */
  lemma {:induction false} DigitsOfAppend(a: string, b: string)
    ensures DigitsOf(a + b) == DigitsOf(a) + DigitsOf(b)
  {
    if a == [] {
      assert a + b == b;
    } else {
      var head := if IsDigit(a[0]) then [a[0]] else [];
      assert (a + b)[0] == a[0] && (a + b)[1..] == a[1..] + b;
      assert DigitsOf(a + b) == head + DigitsOf(a[1..] + b);
      DigitsOfAppend(a[1..], b);
      assert DigitsOf(a) == head + DigitsOf(a[1..]);
    }
  }

  lemma {:induction false} DigitsOfDigits(s: string)
    requires AllDigits(s)
    ensures DigitsOf(s) == s
  {
    if s != [] {
      DigitsOfDigits(s[1..]);
    }
  }

  /** One line of `parse2`: the digits of the line read as one u64. */
  function ParseDigitLine(line: string): (r: Option<nat>)
    ensures r.Some? <==> DigitsOf(line) != [] && DecimalValue(DigitsOf(line)) <= U64_MAX
    ensures r.Some? ==> r.value == DecimalValue(DigitsOf(line))
  {
    ParseUnsigned(DigitsOf(line), U64_MAX)
  }

  /** `parse2`: exactly two lines, each read as one number ignoring non-digits. */
  function Parse2(lines: seq<string>): (r: Option<Race>)
    ensures r.Some? <==> |lines| == 2 && ParseDigitLine(lines[0]).Some? && ParseDigitLine(lines[1]).Some?
    ensures r.Some? ==> (r.value.time == DecimalValue(DigitsOf(lines[0]))
                         && r.value.distance == DecimalValue(DigitsOf(lines[1])))
  {
    if |lines| != 2 then None
    else match (ParseDigitLine(lines[0]), ParseDigitLine(lines[1]))
      case (Some(t), Some(d)) => Some(Race(t, d))
      case _ => None
  }

  /** Every word parsed as a u64, or `None` if one of them does not parse. */
  function ParseAll(words: seq<string>): (r: Option<seq<nat>>)
    ensures r.Some? ==> |r.value| == |words|
    ensures r.Some? ==> forall k | 0 <= k < |words| :: ParseUnsigned(words[k], U64_MAX) == Some(r.value[k])
    ensures r.None? ==> exists k | 0 <= k < |words| :: ParseUnsigned(words[k], U64_MAX).None?
  {
    if words == [] then Some([])
    else match (ParseUnsigned(words[0], U64_MAX), ParseAll(words[1..]))
      case (Some(n), Some(ns)) => Some([n] + ns)
      case (None, _) => None
      case (_, None) =>
        var k :| 0 <= k < |words[1..]| && ParseUnsigned(words[1..][k], U64_MAX).None?;
        assert ParseUnsigned(words[k + 1], U64_MAX).None?;
        None
  }

  /** Iterator `zip`: pairs by position, stopping at the shorter list. */
  function Zip(times: seq<nat>, distances: seq<nat>): (r: seq<Race>)
    ensures |r| == if |times| <= |distances| then |times| else |distances|
    ensures forall k | 0 <= k < |r| :: r[k] == Race(times[k], distances[k])
  {
    if times == [] || distances == [] then []
    else [Race(times[0], distances[0])] + Zip(times[1..], distances[1..])
  }

  /** `parse1`: exactly two lines; "Time:" (5 characters) and "Distance:" (9) are cut off,
      the rest is split on whitespace, every word must parse, and times pair with distances. */
  function Parse1(lines: seq<string>): (r: Option<seq<Race>>)
    ensures r.Some? ==> |lines| == 2 && |lines[0]| >= 5 && |lines[1]| >= 9
    ensures r.Some? ==>
      var ts := SplitWhitespace(lines[0][5..]);
      var ds := SplitWhitespace(lines[1][9..]);
      && |r.value| == (if |ts| <= |ds| then |ts| else |ds|)
      && forall k | 0 <= k < |r.value| ::
           ParseUnsigned(ts[k], U64_MAX) == Some(r.value[k].time)
           && ParseUnsigned(ds[k], U64_MAX) == Some(r.value[k].distance)
    ensures r.None? <==> (|lines| != 2 || |lines[0]| < 5 || |lines[1]| < 9
                          || ParseAll(SplitWhitespace(lines[0][5..])).None?
                          || ParseAll(SplitWhitespace(lines[1][9..])).None?)
  {
    if |lines| != 2 || |lines[0]| < 5 || |lines[1]| < 9 then None
    else match (ParseAll(SplitWhitespace(lines[0][5..])), ParseAll(SplitWhitespace(lines[1][9..])))
      case (Some(ts), Some(ds)) => Some(Zip(ts, ds))
      case _ => None
  }
}
