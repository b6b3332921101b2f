/** Day 5: a seed number is carried through an ordered list of recipes; each
    recipe is a list of `(d, s, l)` rules, and the first rule whose source
    interval `[s, s + l)` holds the number shifts it onto `[d, d + l)`,
    while a number no rule holds passes through unchanged. */
module Day05 {
  import opened Wrappers
  import opened Text

  /** One `(d, s, l)` triple: source interval `[src, src + len)`, shifted to start at `dest`. */
  datatype Rule = Rule(dest: nat, src: nat, len: nat)

  /** One block of the almanac; its rules are tried in stored order. */
  datatype Recipe = Recipe(maps: seq<Rule>)

  predicate Covers(rule: Rule, i: nat) {
    rule.src <= i < rule.src + rule.len
  }

  /** The k-th rule is the first one, in stored order, that covers i. */
  ghost predicate FirstMatch(rules: seq<Rule>, i: nat, k: nat) {
    k < |rules| && Covers(rules[k], i) && forall j | 0 <= j < k :: !Covers(rules[j], i)
  }

  /** What one recipe does to a number (the meaning of `Recipe::map`). */
  function Mapped(rules: seq<Rule>, i: nat): nat {
    if rules == [] then i
    else if Covers(rules[0], i) then rules[0].dest + (i - rules[0].src)
    else Mapped(rules[1..], i)
  }

  /** `Recipe::map`: scan the rules in order and return on the first that covers `i`. */
  method Map(recipe: Recipe, i: nat) returns (r: nat)
    ensures r == Mapped(recipe.maps, i)
  {
    var rules := recipe.maps;
    for k := 0 to |rules|
      invariant Mapped(rules, i) == Mapped(rules[k..], i)
    {
      assert rules[k..][1..] == rules[k + 1..];
      var rule := rules[k];
      if i >= rule.src && i < rule.src + rule.len {
        return (i - rule.src) + rule.dest;
      }
    }
    return i;
  }

  /** The first covering rule decides the result. */
  lemma {:induction false} MappedByFirstMatch(rules: seq<Rule>, i: nat, k: nat)
    requires FirstMatch(rules, i, k)
    ensures Mapped(rules, i) == rules[k].dest + (i - rules[k].src)
  {
    if k > 0 {
      assert !Covers(rules[0], i);
      MappedByFirstMatch(rules[1..], i, k - 1);
    }
  }

  /** With no covering rule (in particular with no rules, or only empty ones) the number is unchanged. */
  lemma {:induction false} MappedIdentity(rules: seq<Rule>, i: nat)
    requires forall k | 0 <= k < |rules| :: !Covers(rules[k], i)
    ensures Mapped(rules, i) == i
  {
    if rules != [] {
      assert !Covers(rules[0], i);
      MappedIdentity(rules[1..], i);
    }
  }

  /** A rule of length 0 never covers anything, so removing it changes nothing. */
  lemma {:induction false} ZeroLengthRuleInert(rules: seq<Rule>, k: nat, i: nat)
    requires k < |rules| && rules[k].len == 0
    ensures Mapped(rules, i) == Mapped(rules[..k] + rules[k + 1..], i)
  {
    if k > 0 {
      ZeroLengthRuleInert(rules[1..], k - 1, i);
      assert rules[1..][..k - 1] + rules[1..][k..] == (rules[..k] + rules[k + 1..])[1..];
    } else {
      assert rules[..k] + rules[k + 1..] == rules[1..];
    }
  }

  /** A number the k-th rule decides lands in that rule's target interval `[dest, dest + len)`. */
  lemma MappedInTarget(rules: seq<Rule>, i: nat, k: nat)
    requires FirstMatch(rules, i, k)
    ensures rules[k].dest <= Mapped(rules, i) < rules[k].dest + rules[k].len
  {
    MappedByFirstMatch(rules, i, k);
  }

  /** Two numbers decided by the same rule keep their distance, so the map preserves order there. */
  lemma MappedKeepsDistance(rules: seq<Rule>, i: nat, j: nat, k: nat)
    requires FirstMatch(rules, i, k) && FirstMatch(rules, j, k)
    ensures Mapped(rules, j) - Mapped(rules, i) == j - i
  {
    MappedByFirstMatch(rules, i, k);
    MappedByFirstMatch(rules, j, k);
  }

  /** `apply_recipes` as a left fold: each recipe's output is the next one's input. */
  function Applied(n: nat, recipes: seq<Recipe>): nat
    decreases recipes
  {
    if recipes == [] then n else Applied(Mapped(recipes[0].maps, n), recipes[1..])
  }

  /** Running the recipes `a + b` is running `a`, then `b` on the result. */
  lemma {:induction false} AppliedAppend(n: nat, a: seq<Recipe>, b: seq<Recipe>)
    ensures Applied(n, a + b) == Applied(Applied(n, a), b)
    decreases a
  {
    if a == [] {
      assert a + b == b;
    } else {
      assert (a + b)[1..] == a[1..] + b;
      AppliedAppend(Mapped(a[0].maps, n), a[1..], b);
    }
  }

  /** `apply_recipes`: the loop that threads `result` through every recipe. */
  method ApplyRecipes(n: nat, recipes: seq<Recipe>) returns (r: nat)
    ensures r == Applied(n, recipes)
  {
    r := n;
    for k := 0 to |recipes|
      invariant Applied(n, recipes) == Applied(r, recipes[k..])
    {
      assert recipes[k..][1..] == recipes[k + 1..];
      r := Map(recipes[k], r);
    }
  }

  /** The seed pairing of `parse`: elements 0 and 1, 2 and 3, ... become (start, length);
      a trailing odd seed is dropped. */
  function Pairs(seeds: seq<nat>): (r: seq<(nat, nat)>)
    ensures |r| == |seeds| / 2
    ensures forall k | 0 <= k < |r| :: r[k] == (seeds[2 * k], seeds[2 * k + 1])
  {
    if |seeds| < 2 then []
    else
      var rest := Pairs(seeds[2..]);
      assert forall k | 0 <= k < |rest| :: seeds[2..][2 * k] == seeds[2 * (k + 1)];
      [(seeds[0], seeds[1])] + rest
  }

  /** The smallest location over a non-empty list of seeds. */
  function MinApplied(seeds: seq<nat>, recipes: seq<Recipe>): (m: nat)
    requires seeds != []
    ensures exists k | 0 <= k < |seeds| :: m == Applied(seeds[k], recipes)
    ensures forall k | 0 <= k < |seeds| :: m <= Applied(seeds[k], recipes)
  {
    var here := Applied(seeds[0], recipes);
    if |seeds| == 1 then here
    else
      var there := MinApplied(seeds[1..], recipes);
      assert forall k | 1 <= k < |seeds| :: seeds[1..][k - 1] == seeds[k];
      if here <= there then here else there
  }

  /** `part1`: the minimum of `apply_recipes` over the seeds; `min().unwrap()` fails on no seeds. */
  function Part1(seeds: seq<nat>, recipes: seq<Recipe>): (r: Option<nat>)
    ensures r.None? <==> seeds == []
    ensures r.Some? ==> exists k | 0 <= k < |seeds| :: r.value == Applied(seeds[k], recipes)
    ensures r.Some? ==> forall k | 0 <= k < |seeds| :: r.value <= Applied(seeds[k], recipes)
  {
    if seeds == [] then None else Some(MinApplied(seeds, recipes))
  }

  predicate InRange(range: (nat, nat), i: nat) {
    range.0 <= i < range.0 + range.1
  }

  /** `part2`: every integer of every range is run through the recipes, and the
      running minimum starts at u64::MAX. */
  method Part2(ranges: seq<(nat, nat)>, recipes: seq<Recipe>) returns (min: nat)
    ensures min <= U64_MAX
    ensures forall p, i | 0 <= p < |ranges| && InRange(ranges[p], i) :: min <= Applied(i, recipes)
    ensures min == U64_MAX || exists p, i | 0 <= p < |ranges| && InRange(ranges[p], i) :: min == Applied(i, recipes)
  {
    min := U64_MAX;
    ghost var wp: nat, wi: nat := 0, 0;
    for p := 0 to |ranges|
      invariant min <= U64_MAX
      invariant forall q, j | 0 <= q < p && InRange(ranges[q], j) :: min <= Applied(j, recipes)
      invariant min == U64_MAX || (wp < p && InRange(ranges[wp], wi) && min == Applied(wi, recipes))
    {
      var (b, l) := ranges[p];
      for i := b to b + l
        invariant min <= U64_MAX
        invariant forall q, j | 0 <= q < p && InRange(ranges[q], j) :: min <= Applied(j, recipes)
        invariant forall j | b <= j < i :: min <= Applied(j, recipes)
        invariant min == U64_MAX || (wp <= p && InRange(ranges[wp], wi) && min == Applied(wi, recipes))
      {
        var v := ApplyRecipes(i, recipes);
        if v < min {
          min, wp, wi := v, p, i;
        }
      }
    }
  }
}
