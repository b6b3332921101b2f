/** Day 4: scratch cards. A card's matches are the numbers it has that are
    also winning numbers; part 1 scores each card, part 2 lets every match
    win copies of the following cards. */
module Day04 {
  import opened Wrappers

  datatype Card = Card(id: nat, winning: seq<nat>, have: seq<nat>)

  /** The numbers of `have` that occur in `winning`, in `have`'s order. */
  function Common(have: seq<nat>, winning: seq<nat>): (r: seq<nat>)
    ensures |r| <= |have|
  {
    if have == [] then []
    else
      var rest := Common(have[..|have| - 1], winning);
      if have[|have| - 1] in winning then rest + [have[|have| - 1]] else rest
  }

  /** Each number occurs in the intersection exactly as often as in `have` when it is
      a winning number, and not at all otherwise. */
  lemma {:induction false} CommonMultiplicity(have: seq<nat>, winning: seq<nat>, x: nat)
    ensures multiset(Common(have, winning))[x] == if x in winning then multiset(have)[x] else 0
  {
    if have != [] {
      var init, last := have[..|have| - 1], have[|have| - 1];
      assert have == init + [last];
      CommonMultiplicity(init, winning, x);
    }
  }

  /** Membership in the intersection, both ways. */
  lemma CommonMembers(have: seq<nat>, winning: seq<nat>, x: nat)
    ensures x in Common(have, winning) <==> x in have && x in winning
  {
    CommonMultiplicity(have, winning, x);
    var r: seq<nat> := Common(have, winning);
    var mr: multiset<nat> := multiset(r);
    var mh: multiset<nat> := multiset(have);
    assert x in r <==> x in mr;
    assert x in have <==> x in mh;
  }

  /** The filter works piece by piece, so the intersection keeps `have`'s order: together
      with `Common([x], winning)` being `[x]` or `[]`, this fixes it element by element. */
  lemma {:induction false} CommonAppend(a: seq<nat>, b: seq<nat>, winning: seq<nat>)
    ensures Common(a + b, winning) == Common(a, winning) + Common(b, winning)
    decreases |b|
  {
    if b == [] {
      assert a + b == a;
    } else {
      var init, last := b[..|b| - 1], b[|b| - 1];
      assert (a + b)[..|a + b| - 1] == a + init;
      CommonAppend(a, init, winning);
    }
  }

  /** One number is kept exactly when it is a winning number. */
  lemma CommonSingle(x: nat, winning: seq<nat>)
    ensures Common([x], winning) == if x in winning then [x] else []
  {
    assert [x][..0] == [];
  }

  /** `intersection`: push every number of `have` that `winning` contains. */
  method Intersection(card: Card) returns (result: seq<nat>)
    ensures result == Common(card.have, card.winning)
  {
    result := [];
    for k := 0 to |card.have|
      invariant result == Common(card.have[..k], card.winning)
    {
      assert card.have[..k + 1][..k] == card.have[..k];
      if card.have[k] in card.winning {
        result := result + [card.have[k]];
      }
    }
    assert card.have[..|card.have|] == card.have;
  }

  function Matches(card: Card): nat {
    |Common(card.have, card.winning)|
  }

  function Pow2(n: nat): (p: nat)
    ensures p >= 1
  {
    if n == 0 then 1 else 2 * Pow2(n - 1)
  }

  /** Part 1 score of a card with k matches: nothing without a match, otherwise 2^(k-1). */
  function Points(k: nat): nat {
    if k == 0 then 0 else Pow2(k - 1)
  }

  /** The first match is worth 1 and every further match doubles the score. */
  lemma PointsDouble(k: nat)
    ensures Points(1) == 1
    ensures k >= 1 ==> Points(k + 1) == 2 * Points(k)
  {
  }

  function Score(cards: seq<Card>): nat {
    if cards == [] then 0 else Score(cards[..|cards| - 1]) + Points(Matches(cards[|cards| - 1]))
  }

  /** `part1`: the sum of the cards' points. */
  method Part1(cards: seq<Card>) returns (result: nat)
    ensures result == Score(cards)
  {
    result := 0;
    for k := 0 to |cards|
      invariant result == Score(cards[..k])
    {
      assert cards[..k + 1][..k] == cards[..k];
      var common := Intersection(cards[k]);
      if |common| > 0 {
        result := result + Pow2(|common| - 1);
      }
    }
    assert cards[..|cards|] == cards;
  }

  /** The indexing `card_count[(id - 1) + i]` for `i` in `1..=m` stays inside `n` entries;
      a card without matches indexes nothing. */
  predicate InBounds(card: Card, n: nat) {
    var m := Matches(card);
    m == 0 || (1 <= card.id && card.id - 1 + m < n)
  }

  /** The counts after the first i additions of entry k to the entries that follow it. */
  function Copies(counts: seq<nat>, k: nat, i: nat): (r: seq<nat>)
    requires k + i < |counts|
    ensures |r| == |counts|
    ensures forall j | 0 <= j < |counts| :: r[j] == counts[j] + (if k < j <= k + i then counts[k] else 0)
  {
    if i == 0 then counts
    else
      var prev := Copies(counts, k, i - 1);
      prev[k + i := prev[k + i] + prev[k]]
  }

  /** What processing one card does to the counts. */
  function CardStep(counts: seq<nat>, card: Card): (r: seq<nat>)
    requires InBounds(card, |counts|)
    ensures |r| == |counts|
  {
    if Matches(card) == 0 then counts else Copies(counts, card.id - 1, Matches(card))
  }

  predicate AllInBounds(cards: seq<Card>, n: nat) {
    forall k | 0 <= k < |cards| :: InBounds(cards[k], n)
  }

  /** The counts after processing the cards in order. */
  function Cascade(counts: seq<nat>, cards: seq<Card>): (r: seq<nat>)
    requires AllInBounds(cards, |counts|)
    ensures |r| == |counts|
  {
    if cards == [] then counts
    else CardStep(Cascade(counts, cards[..|cards| - 1]), cards[|cards| - 1])
  }

  function Ones(n: nat): (r: seq<nat>)
    ensures |r| == n && forall j | 0 <= j < n :: r[j] == 1
  {
    seq(n, _ => 1)
  }

  function Sum(s: seq<nat>): nat {
    if s == [] then 0 else Sum(s[..|s| - 1]) + s[|s| - 1]
  }

  /** Counts never decrease. */
  lemma {:induction false} CascadeGrows(counts: seq<nat>, cards: seq<Card>, j: nat)
    requires AllInBounds(cards, |counts|) && j < |counts|
    ensures Cascade(counts, cards)[j] >= counts[j]
  {
    if cards != [] {
      CascadeGrows(counts, cards[..|cards| - 1], j);
    }
  }

  /** With ids 1..n in input order, once the card at index k is processed the entries
      at indices up to k are final: later cards only add to entries after their own. */
  lemma {:induction false} CascadeFinal(counts: seq<nat>, cards: seq<Card>, k: nat, t: nat, j: nat)
    requires AllInBounds(cards, |counts|)
    requires forall p | 0 <= p < |cards| :: cards[p].id == p + 1
    requires k < t <= |cards| && j <= k && j < |counts|
    ensures Cascade(counts, cards[..t])[j] == Cascade(counts, cards[..k + 1])[j]
  {
    assert AllInBounds(cards[..t], |counts|);
    if t > k + 1 {
      assert cards[..t][..t - 1] == cards[..t - 1];
      CascadeFinal(counts, cards, k, t - 1, j);
    }
  }

  lemma {:induction false} SumAtLeastLength(s: seq<nat>)
    requires forall j | 0 <= j < |s| :: s[j] >= 1
    ensures Sum(s) >= |s|
  {
    if s != [] {
      SumAtLeastLength(s[..|s| - 1]);
    }
  }

  /** Every card is held at least once, so the total is at least the number of cards. */
  lemma TotalAtLeastCards(cards: seq<Card>)
    requires AllInBounds(cards, |cards|)
    ensures Sum(Cascade(Ones(|cards|), cards)) >= |cards|
  {
    var r := Cascade(Ones(|cards|), cards);
    forall j | 0 <= j < |r| ensures r[j] >= 1 {
      CascadeGrows(Ones(|cards|), cards, j);
    }
    SumAtLeastLength(r);
  }

  lemma OutOfBounds(cards: seq<Card>, k: nat, n: nat)
    requires k < |cards| && !InBounds(cards[k], n)
    ensures !AllInBounds(cards, n)
  {
  }

  /** One more card in bounds extends the cascade by one step. */
  lemma CascadeStep(cards: seq<Card>, k: nat, n: nat)
    requires k < |cards| && AllInBounds(cards[..k], n) && InBounds(cards[k], n)
    ensures AllInBounds(cards[..k + 1], n)
    ensures Cascade(Ones(n), cards[..k + 1]) == CardStep(Cascade(Ones(n), cards[..k]), cards[k])
  {
    assert cards[..k + 1][..k] == cards[..k];
  }

  /** The inner loop of `part2`: entry k is added to entries k+1..k+m, one at a time. */
  method AddCopies(count: array<nat>, k: nat, m: nat)
    requires k + m < count.Length
    modifies count
    ensures count[..] == Copies(old(count[..]), k, m)
  {
    ghost var before := count[..];
    for i := 1 to m + 1
      invariant count[..] == Copies(before, k, i - 1)
    {
      count[k + i] := count[k + i] + count[k];
    }
  }

  /** `part2`: `card_count` starts as all ones; card `id` with m matches adds
      `card_count[id - 1]` to the m entries after it; the result is the total.
      An index out of bounds panics, modelled as `None`. */
  method Part2(cards: seq<Card>) returns (r: Option<nat>)
    ensures r.Some? <==> AllInBounds(cards, |cards|)
    ensures r.Some? ==> r.value == Sum(Cascade(Ones(|cards|), cards))
  {
    var n := |cards|;
    var count := new nat[n](_ => 1);
    for ci := 0 to n
      invariant AllInBounds(cards[..ci], n)
      invariant count[..] == Cascade(Ones(n), cards[..ci])
    {
      var card := cards[ci];
      var common := Intersection(card);
      var m := |common|;
      if m > 0 && !(1 <= card.id && card.id - 1 + m < n) {
        OutOfBounds(cards, ci, n);
        return None;
      }
      CascadeStep(cards, ci, n);
      ghost var c0 := count[..];
      if m > 0 {
        AddCopies(count, card.id - 1, m);
      }
      assert count[..] == CardStep(c0, card);
    }
    assert cards[..n] == cards;
    r := Some(Sum(count[..]));
  }
}
