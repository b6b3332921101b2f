/** Day 7: Camel Cards. Hands of five cards are ranked by strength (the shape of
    their card multiplicities) and then card by card; part 2 lets every Jack act
    as a joker for the strength while ranking it lowest for ties. */
module Day07 {
  import opened Wrappers
  import opened Text

  datatype Card = Ace | King | Queen | Jack | Ten | Nine | Eight | Seven | Six | Five | Four | Three | Two

  datatype Ordering = Less | Equal | Greater {
    function Reverse(): Ordering {
      match this
      case Less => Greater
      case Equal => Equal
      case Greater => Less
    }
  }

  /** The letter a card is written as. */
  function ToChar(card: Card): char {
    match card
    case Ace => 'A'
    case King => 'K'
    case Queen => 'Q'
    case Jack => 'J'
    case Ten => 'T'
    case Nine => '9'
    case Eight => '8'
    case Seven => '7'
    case Six => '6'
    case Five => '5'
    case Four => '4'
    case Three => '3'
    case Two => '2'
  }

  /** `Card::from`: one of `AKQJT98765432`; any other character panics (None). */
  function FromChar(c: char): (r: Option<Card>)
    ensures r.Some? ==> ToChar(r.value) == c
    ensures r.None? <==> c !in "AKQJT98765432"
  {
    match c
    case 'A' => Some(Ace)
    case 'K' => Some(King)
    case 'Q' => Some(Queen)
    case 'J' => Some(Jack)
    case 'T' => Some(Ten)
    case '9' => Some(Nine)
    case '8' => Some(Eight)
    case '7' => Some(Seven)
    case '6' => Some(Six)
    case '5' => Some(Five)
    case '4' => Some(Four)
    case '3' => Some(Three)
    case '2' => Some(Two)
    case _ => None
  }

  /** Every card is read back from its letter, so distinct cards have distinct letters. */
  lemma FromCharOfToChar(card: Card)
    ensures FromChar(ToChar(card)) == Some(card)
  {
  }

  /** The rank table of `Card::cmp1`: Ace 14 down to Two 2, Jack 11. */
  function Rank1(card: Card): nat {
    match card
    case Ace => 14
    case King => 13
    case Queen => 12
    case Jack => 11
    case Ten => 10
    case Nine => 9
    case Eight => 8
    case Seven => 7
    case Six => 6
    case Five => 5
    case Four => 4
    case Three => 3
    case Two => 2
  }

  /** The rank table of `Card::cmp2`: as `Rank1` but Jack is moved to the bottom with 2. */
  function Rank2(card: Card): nat {
    match card
    case Ace => 14
    case King => 13
    case Queen => 12
    case Ten => 11
    case Nine => 10
    case Eight => 9
    case Seven => 8
    case Six => 7
    case Five => 6
    case Four => 5
    case Three => 4
    case Two => 3
    case Jack => 2
  }

  /** `Card::_cmp`: compare two cards by their entries in a rank table. Both tables
      list all thirteen cards, so the lookups always succeed. */
  function CmpBy(a: Card, b: Card, rank: Card -> nat): (r: Ordering)
    ensures r == CmpNat(rank(a), rank(b))
  {
    if rank(a) == rank(b) then Equal
    else if rank(a) > rank(b) then Greater
    else Less
  }

  /** The reference order on numbers. */
  function CmpNat(x: nat, y: nat): Ordering {
    if x < y then Less else if x == y then Equal else Greater
  }

  function CardCmp1(a: Card, b: Card): Ordering {
    CmpBy(a, b, Rank1)
  }

  function CardCmp2(a: Card, b: Card): Ordering {
    CmpBy(a, b, Rank2)
  }

  /** Both card orders are total and answer Equal only for the same card. */
  lemma {:induction false} CardCmpEqual(a: Card, b: Card)
    ensures CardCmp1(a, b) == Equal <==> a == b
    ensures CardCmp2(a, b) == Equal <==> a == b
    ensures CardCmp1(a, b) == CardCmp1(b, a).Reverse()
    ensures CardCmp2(a, b) == CardCmp2(b, a).Reverse()
  {
    match a
    case Ace =>
    case King =>
    case Queen =>
    case Jack =>
    case Ten =>
    case Nine =>
    case Eight =>
    case Seven =>
    case Six =>
    case Five =>
    case Four =>
    case Three =>
    case Two =>
  }

  /** `cmp2` agrees with `cmp1` on every pair without a Jack. */
  lemma Cmp2AgreesOffJack(a: Card, b: Card)
    requires a != Jack && b != Jack
    ensures CardCmp2(a, b) == CardCmp1(a, b)
  {
  }

  /** Under `cmp2` the Jack is below every other card, Two included. */
  lemma JackLowest(a: Card)
    requires a != Jack
    ensures CardCmp2(Jack, a) == Less
  {
  }

  datatype Hand = Hand(c0: Card, c1: Card, c2: Card, c3: Card, c4: Card) {
    /** `to_vec`: the five cards in order. */
    function Cards(): (cs: seq<Card>)
      ensures |cs| == 5
    {
      [c0, c1, c2, c3, c4]
    }
  }

  lemma CardsInjective(a: Hand, b: Hand)
    requires a.Cards() == b.Cards()
    ensures a == b
  {
    assert a.c0 == a.Cards()[0] == b.Cards()[0] == b.c0;
    assert a.c1 == a.Cards()[1] == b.Cards()[1] == b.c1;
    assert a.c2 == a.Cards()[2] == b.Cards()[2] == b.c2;
    assert a.c3 == a.Cards()[3] == b.Cards()[3] == b.c3;
    assert a.c4 == a.Cards()[4] == b.Cards()[4] == b.c4;
  }

  function FromCards(cs: seq<Card>): (h: Hand)
    requires |cs| == 5
    ensures h.Cards() == cs
  {
    Hand(cs[0], cs[1], cs[2], cs[3], cs[4])
  }

  function HandString(h: Hand): (s: string)
    ensures |s| == 5
  {
    [ToChar(h.c0), ToChar(h.c1), ToChar(h.c2), ToChar(h.c3), ToChar(h.c4)]
  }

  /** `Hand::from_str`: exactly five characters, each a card; anything else panics. */
  function ParseHand(s: string): (r: Option<Hand>)
    ensures r.Some? <==> |s| == 5 && forall i | 0 <= i < 5 :: FromChar(s[i]).Some?
    ensures r.Some? ==> HandString(r.value) == s
  {
    if |s| != 5 then None
    else match (FromChar(s[0]), FromChar(s[1]), FromChar(s[2]), FromChar(s[3]), FromChar(s[4]))
      case (Some(a), Some(b), Some(c), Some(d), Some(e)) => Some(Hand(a, b, c, d, e))
      case _ => None
  }

  /** Writing a hand out and reading it back gives the hand. */
  lemma ParseHandString(h: Hand)
    ensures ParseHand(HandString(h)) == Some(h)
  {
    FromCharOfToChar(h.c0);
    FromCharOfToChar(h.c1);
    FromCharOfToChar(h.c2);
    FromCharOfToChar(h.c3);
    FromCharOfToChar(h.c4);
  }

  datatype Strength = HighCard | OnePair | TwoPairs | ThreeOfKind | FullHouse | FourOfKind | FiveOfKind {
    /** The discriminant `strength() as u8`. */
    function Value(): nat {
      match this
      case HighCard => 0
      case OnePair => 1
      case TwoPairs => 2
      case ThreeOfKind => 3
      case FullHouse => 4
      case FourOfKind => 5
      case FiveOfKind => 6
    }
  }

  /** The `counts` map after the loop has seen the cards `s`: `entry(c).or_insert(0) += 1`. */
  function Counts(s: seq<Card>): map<Card, nat> {
    if s == [] then map[]
    else
      var m := Counts(s[..|s| - 1]);
      var c := s[|s| - 1];
      m[c := (if c in m then m[c] else 0) + 1]
  }

  /** The map holds exactly the cards of `s`, each with its multiplicity. */
  lemma {:induction false} CountsMultiset(s: seq<Card>)
    ensures Counts(s) == map c | c in multiset(s) :: multiset(s)[c]
  {
    if s != [] {
      var t := s[..|s| - 1];
      CountsMultiset(t);
      assert s == t + [s[|s| - 1]];
    }
  }

  /** The decision chain of `strength` on the counts map. */
  function Classify(m: map<Card, nat>): Strength {
    if |m| == 1 then FiveOfKind
    else if 4 in m.Values then FourOfKind
    else if 3 in m.Values && |m| == 2 then FullHouse
    else if 3 in m.Values && |m| == 3 then ThreeOfKind
    else if |set c | c in m && m[c] == 2| == 2 then TwoPairs
    else if |m| == 4 then OnePair
    else HighCard
  }

  function StrengthOf(h: Hand): Strength {
    Classify(Counts(h.Cards()))
  }

  /** `Hand::strength`: count the cards in a map, then classify. */
  method HandStrength(h: Hand) returns (s: Strength)
    ensures s == StrengthOf(h)
  {
    var counts: map<Card, nat> := map[];
    var cards := h.Cards();
    for i := 0 to 5
      invariant counts == Counts(cards[..i])
    {
      assert cards[..i + 1][..i] == cards[..i];
      var c := cards[i];
      counts := counts[c := (if c in counts then counts[c] else 0) + 1];
    }
    assert cards[..5] == cards;
    s := Classify(counts);
  }

  /** The strength depends only on which cards the hand holds, not on their order. */
  lemma StrengthPermutation(h1: Hand, h2: Hand)
    requires multiset(h1.Cards()) == multiset(h2.Cards())
    ensures StrengthOf(h1) == StrengthOf(h2)
  {
    CountsMultiset(h1.Cards());
    CountsMultiset(h2.Cards());
  }

  /** The different cards of `s`. */
  function Elems(s: seq<Card>): set<Card> {
    set c | c in s
  }

  lemma {:induction false} ElemsBound(s: seq<Card>)
    ensures |Elems(s)| <= |s|
  {
    if s != [] {
      ElemsBound(s[1..]);
      assert Elems(s) == {s[0]} + Elems(s[1..]);
    }
  }

  /** A card that occurs n times leaves room for at most |s| - n other cards. */
  lemma {:induction false} OneKey(s: seq<Card>, x: Card)
    requires x in s
    ensures multiset(s)[x] + |Elems(s)| <= |s| + 1
  {
    var t := s[1..];
    assert s == [s[0]] + t;
    assert Elems(s) == {s[0]} + Elems(t);
    if x in t {
      OneKey(t, x);
    } else {
      ElemsBound(t);
    }
  }

  /** Two different cards occurring n and k times leave room for at most |s| - n - k others. */
  lemma {:induction false} TwoKeys(s: seq<Card>, x: Card, y: Card)
    requires x in s && y in s && x != y
    ensures multiset(s)[x] + multiset(s)[y] + |Elems(s)| <= |s| + 2
  {
    var t := s[1..];
    assert s == [s[0]] + t;
    assert Elems(s) == {s[0]} + Elems(t);
    if x in t && y in t {
      TwoKeys(t, x, y);
    } else if x in t {
      OneKey(t, x);
    } else if y in t {
      OneKey(t, y);
    } else {
      assert false;
    }
  }

  /** The counts map has one key per different card. */
  lemma CountsKeys(h: Hand)
    ensures Counts(h.Cards()).Keys == Elems(h.Cards())
    ensures |Counts(h.Cards())| == |Elems(h.Cards())|
    ensures forall c | c in Counts(h.Cards()) :: Counts(h.Cards())[c] == multiset(h.Cards())[c]
  {
    CountsMultiset(h.Cards());
  }

  /** A hand is five of a kind exactly when it holds a single kind of card. */
  lemma OneDistinct(h: Hand)
    ensures StrengthOf(h) == FiveOfKind <==> |Elems(h.Cards())| == 1
  {
    CountsKeys(h);
  }

  /** Four different cards make one pair. */
  lemma FourDistinct(h: Hand)
    requires |Elems(h.Cards())| == 4
    ensures StrengthOf(h) == OnePair
  {
    var cs := h.Cards();
    var m := Counts(cs);
    CountsKeys(h);
    forall c | c in m ensures m[c] <= 2 {
      OneKey(cs, c);
    }
    var pairs := set c | c in m && m[c] == 2;
    if |pairs| == 2 {
      var x :| x in pairs;
      assert |pairs - {x}| == 1;
      var y :| y in pairs - {x};
      TwoKeys(cs, x, y);
      assert false;
    }
  }

  /** Five different cards make a high card. */
  lemma FiveDistinct(h: Hand)
    requires |Elems(h.Cards())| == 5
    ensures StrengthOf(h) == HighCard
  {
    var cs := h.Cards();
    var m := Counts(cs);
    CountsKeys(h);
    forall c | c in m ensures m[c] == 1 {
      OneKey(cs, c);
    }
    var pairs := set c | c in m && m[c] == 2;
    assert pairs == {};
  }

  /** The tie-break loops of `Hand::cmp1` and `cmp`: walk the zipped cards and return
      the first comparison that is not Equal. */
  function LexCmp(xs: seq<Card>, ys: seq<Card>, rank: Card -> nat): Ordering {
    if xs == [] || ys == [] then Equal
    else
      var r := CmpBy(xs[0], ys[0], rank);
      if r != Equal then r else LexCmp(xs[1..], ys[1..], rank)
  }

  /** The result is decided at the first position whose ranks differ. */
  lemma {:induction false} LexFirstDifference(xs: seq<Card>, ys: seq<Card>, rank: Card -> nat, j: nat)
    requires |xs| == |ys| && j < |xs|
    requires forall i | 0 <= i < j :: rank(xs[i]) == rank(ys[i])
    requires rank(xs[j]) != rank(ys[j])
    ensures LexCmp(xs, ys, rank) == CmpNat(rank(xs[j]), rank(ys[j]))
  {
    if j > 0 {
      assert rank(xs[0]) == rank(ys[0]);
      LexFirstDifference(xs[1..], ys[1..], rank, j - 1);
    }
  }

  /** Equal exactly when the ranks agree everywhere. */
  lemma {:induction false} LexEqual(xs: seq<Card>, ys: seq<Card>, rank: Card -> nat)
    requires |xs| == |ys|
    ensures LexCmp(xs, ys, rank) == Equal <==> forall i | 0 <= i < |xs| :: rank(xs[i]) == rank(ys[i])
  {
    if xs != [] {
      LexEqual(xs[1..], ys[1..], rank);
      if rank(xs[0]) == rank(ys[0]) {
        assert forall i | 1 <= i < |xs| :: xs[i] == xs[1..][i - 1] && ys[i] == ys[1..][i - 1];
      }
    }
  }

  /** Swapping the arguments reverses the answer. */
  lemma {:induction false} LexReverse(xs: seq<Card>, ys: seq<Card>, rank: Card -> nat)
    ensures LexCmp(xs, ys, rank) == LexCmp(ys, xs, rank).Reverse()
  {
    if xs != [] && ys != [] {
      LexReverse(xs[1..], ys[1..], rank);
    }
  }

  /** "Not Greater" is transitive. */
  lemma {:induction false} LexTransitive(xs: seq<Card>, ys: seq<Card>, zs: seq<Card>, rank: Card -> nat)
    requires |xs| == |ys| == |zs|
    requires LexCmp(xs, ys, rank) != Greater && LexCmp(ys, zs, rank) != Greater
    ensures LexCmp(xs, zs, rank) != Greater
  {
    if xs != [] {
      if rank(xs[0]) == rank(ys[0]) && rank(ys[0]) == rank(zs[0]) {
        LexTransitive(xs[1..], ys[1..], zs[1..], rank);
      }
    }
  }

  /** Both rank tables give different cards different ranks. */
  lemma RanksInjective(a: Card, b: Card)
    ensures Rank1(a) == Rank1(b) ==> a == b
    ensures Rank2(a) == Rank2(b) ==> a == b
  {
    CardCmpEqual(a, b);
  }

  /** On five-card rows with an injective table, Equal means the same cards. */
  lemma LexEqualCards(a: Hand, b: Hand)
    ensures LexCmp(a.Cards(), b.Cards(), Rank1) == Equal <==> a == b
    ensures LexCmp(a.Cards(), b.Cards(), Rank2) == Equal <==> a == b
  {
    LexEqual(a.Cards(), b.Cards(), Rank1);
    LexEqual(a.Cards(), b.Cards(), Rank2);
    forall i | 0 <= i < 5 {
      RanksInjective(a.Cards()[i], b.Cards()[i]);
    }
    if a != b {
      assert a.Cards() != b.Cards();
    }
  }

  /** `Hand::cmp1`: equal hands are Equal, then the higher strength wins, then the
      first differing card under `Card::cmp1`. */
  function HandCmp1(a: Hand, b: Hand): Ordering {
    var l := StrengthOf(a).Value();
    var r := StrengthOf(b).Value();
    if a == b then Equal
    else if l > r then Greater
    else if l < r then Less
    else LexCmp(a.Cards(), b.Cards(), Rank1)
  }

  /** The order `Hand::cmp1` stands for: strength first, then card by card; the
      leading equality test never changes the answer. */
  lemma HandCmp1Meaning(a: Hand, b: Hand)
    ensures StrengthOf(a) != StrengthOf(b) ==>
      HandCmp1(a, b) == CmpNat(StrengthOf(a).Value(), StrengthOf(b).Value())
    ensures StrengthOf(a) == StrengthOf(b) ==> HandCmp1(a, b) == LexCmp(a.Cards(), b.Cards(), Rank1)
    ensures HandCmp1(a, b) == Equal <==> a == b
  {
    LexEqualCards(a, b);
  }

  lemma HandCmp1Reverse(a: Hand, b: Hand)
    ensures HandCmp1(a, b) == HandCmp1(b, a).Reverse()
  {
    LexReverse(a.Cards(), b.Cards(), Rank1);
  }

  lemma HandCmp1Transitive(a: Hand, b: Hand, c: Hand)
    requires HandCmp1(a, b) != Greater && HandCmp1(b, c) != Greater
    ensures HandCmp1(a, c) != Greater
  {
    HandCmp1Meaning(a, b);
    HandCmp1Meaning(b, c);
    HandCmp1Meaning(a, c);
    if StrengthOf(a) == StrengthOf(b) == StrengthOf(c) {
      LexTransitive(a.Cards(), b.Cards(), c.Cards(), Rank1);
    }
  }

  /** The free `cmp` of part 2 on (hand, best hand) pairs: the strength of the best
      hands first, then the original cards under `Card::cmp2`. */
  function JokerCmp(h1: Hand, b1: Hand, h2: Hand, b2: Hand): Ordering {
    var s1 := StrengthOf(b1).Value();
    var s2 := StrengthOf(b2).Value();
    if s1 > s2 then Greater
    else if s1 < s2 then Less
    else LexCmp(h1.Cards(), h2.Cards(), Rank2)
  }

  /** Equal exactly when the best hands are equally strong and the hands are the same. */
  lemma JokerCmpEqual(h1: Hand, b1: Hand, h2: Hand, b2: Hand)
    ensures JokerCmp(h1, b1, h2, b2) == Equal <==> StrengthOf(b1) == StrengthOf(b2) && h1 == h2
  {
    LexEqualCards(h1, h2);
  }

  lemma JokerCmpReverse(h1: Hand, b1: Hand, h2: Hand, b2: Hand)
    ensures JokerCmp(h1, b1, h2, b2) == JokerCmp(h2, b2, h1, b1).Reverse()
  {
    LexReverse(h1.Cards(), h2.Cards(), Rank2);
  }

  lemma JokerCmpTransitive(h1: Hand, b1: Hand, h2: Hand, b2: Hand, h3: Hand, b3: Hand)
    requires JokerCmp(h1, b1, h2, b2) != Greater && JokerCmp(h2, b2, h3, b3) != Greater
    ensures JokerCmp(h1, b1, h3, b3) != Greater
  {
    if StrengthOf(b1) == StrengthOf(b2) == StrengthOf(b3) {
      LexTransitive(h1.Cards(), h2.Cards(), h3.Cards(), Rank2);
    }
  }

  /** The hand with position i set to c. */
  function With(h: Hand, i: nat, c: Card): (r: Hand)
    requires i < 5
    ensures r.Cards() == h.Cards()[i := c]
  {
    if i == 0 then h.(c0 := c)
    else if i == 1 then h.(c1 := c)
    else if i == 2 then h.(c2 := c)
    else if i == 3 then h.(c3 := c)
    else h.(c4 := c)
  }

  /** `Hand::change`: set the i-th card of a copy; an index past 4 panics (None). */
  method Change(h: Hand, i: nat, c: Card) returns (r: Option<Hand>)
    ensures r.Some? <==> i <= 4
    ensures r.Some? ==> r.value == With(h, i, c)
  {
    var hand := h;
    if i == 0 {
      hand := hand.(c0 := c);
    } else if i == 1 {
      hand := hand.(c1 := c);
    } else if i == 2 {
      hand := hand.(c2 := c);
    } else if i == 3 {
      hand := hand.(c3 := c);
    } else if i == 4 {
      hand := hand.(c4 := c);
    } else {
      return None;
    }
    r := Some(hand);
  }

  /** The number of Jacks in a hand: what every level of `gen_hands` reduces. */
  function Jacks(h: Hand): nat {
    (if h.c0 == Jack then 1 else 0) + (if h.c1 == Jack then 1 else 0) + (if h.c2 == Jack then 1 else 0)
    + (if h.c3 == Jack then 1 else 0) + (if h.c4 == Jack then 1 else 0)
  }

  /** The replacements `gen_hands` tries for a Jack, in its order: every other card. */
  const Replacements: seq<Card> := [Two, Three, Four, Five, Six, Seven, Eight, Nine, Ten, Queen, King, Ace]

  lemma ReplacementsCover(c: Card)
    requires c != Jack
    ensures exists k | 0 <= k < |Replacements| :: Replacements[k] == c
  {
    match c
    case Two => assert Replacements[0] == c;
    case Three => assert Replacements[1] == c;
    case Four => assert Replacements[2] == c;
    case Five => assert Replacements[3] == c;
    case Six => assert Replacements[4] == c;
    case Seven => assert Replacements[5] == c;
    case Eight => assert Replacements[6] == c;
    case Nine => assert Replacements[7] == c;
    case Ten => assert Replacements[8] == c;
    case Queen => assert Replacements[9] == c;
    case King => assert Replacements[10] == c;
    case Ace => assert Replacements[11] == c;
  }

  /** Replacing a Jack by another card removes one Jack. */
  lemma ReplaceJack(h: Hand, i: nat, c: Card)
    requires i < 5 && h.Cards()[i] == Jack && c != Jack
    ensures Jacks(With(h, i, c)) == Jacks(h) - 1
  {
    if i == 0 {
      assert h.c0 == Jack;
    } else if i == 1 {
      assert h.c1 == Jack;
    } else if i == 2 {
      assert h.c2 == Jack;
    } else if i == 3 {
      assert h.c3 == Jack;
    } else {
      assert h.c4 == Jack;
    }
  }

  /** What `gen_hands` returns: `[h]` for a Jack-free hand, else the hands generated
      from every one-Jack replacement, position by position and card by card. */
  function Generated(h: Hand): seq<Hand>
    decreases Jacks(h), 2, 0
  {
    if Jack !in h.Cards() then [h] else GeneratedUpTo(h, 5)
  }

  /** The result list after the outer loop has seen positions 0..i-1. */
  function GeneratedUpTo(h: Hand, i: nat): seq<Hand>
    requires i <= 5
    decreases Jacks(h), 1, i
  {
    if i == 0 then []
    else GeneratedUpTo(h, i - 1) + (if h.Cards()[i - 1] == Jack then GeneratedAt(h, i - 1, 12) else [])
  }

  /** What the inner loop adds for the Jack at position i after k replacements. */
  function GeneratedAt(h: Hand, i: nat, k: nat): seq<Hand>
    requires i < 5 && h.Cards()[i] == Jack && k <= 12
    decreases Jacks(h), 0, k
  {
    if k == 0 then []
    else
      ReplaceJack(h, i, Replacements[k - 1]);
      GeneratedAt(h, i, k - 1) + Generated(With(h, i, Replacements[k - 1]))
  }

  /** `Hand::gen_hands`: the outer loop over Jack positions; every recursion has one
      Jack fewer. */
  method GenHands(h: Hand) returns (result: seq<Hand>)
    ensures result == Generated(h)
    decreases Jacks(h), 1
  {
    var cards := h.Cards();
    if Jack !in cards {
      return [h];
    }
    result := [];
    for i := 0 to 5
      invariant result == GeneratedUpTo(h, i)
    {
      if cards[i] == Jack {
        var more := GenReplacements(h, i);
        result := result + more;
      }
    }
  }

  /** The inner loop of `gen_hands`: try every replacement for the Jack at position i
      and collect what the changed hands generate. */
  method GenReplacements(h: Hand, i: nat) returns (result: seq<Hand>)
    requires i < 5 && h.Cards()[i] == Jack
    ensures result == GeneratedAt(h, i, 12)
    decreases Jacks(h), 0
  {
    result := [];
    for k := 0 to 12
      invariant result == GeneratedAt(h, i, k)
    {
      var changed := Change(h, i, Replacements[k]);
      var child := changed.value;
      ReplaceJack(h, i, Replacements[k]);
      var more := GenHands(child);
      assert GeneratedAt(h, i, k + 1) == GeneratedAt(h, i, k) + Generated(child);
      result := result + more;
    }
  }

  predicate JackFree(g: Hand) {
    Jack !in g.Cards()
  }

  /** g keeps every card of h that is not a Jack. */
  predicate Agrees(h: Hand, g: Hand) {
    forall i | 0 <= i < 5 :: h.Cards()[i] != Jack ==> g.Cards()[i] == h.Cards()[i]
  }

  /** Every generated hand is Jack-free and keeps the non-Jack cards. */
  lemma {:induction false} GeneratedSound(h: Hand)
    ensures forall g | g in Generated(h) :: JackFree(g) && Agrees(h, g)
    decreases Jacks(h), 2, 0
  {
    if Jack in h.Cards() {
      GeneratedUpToSound(h, 5);
    }
  }

  lemma {:induction false} GeneratedUpToSound(h: Hand, i: nat)
    requires i <= 5
    ensures forall g | g in GeneratedUpTo(h, i) :: JackFree(g) && Agrees(h, g)
    decreases Jacks(h), 1, i
  {
    if i > 0 {
      GeneratedUpToSound(h, i - 1);
      if h.Cards()[i - 1] == Jack {
        GeneratedAtSound(h, i - 1, 12);
      }
    }
  }

  lemma {:induction false} GeneratedAtSound(h: Hand, i: nat, k: nat)
    requires i < 5 && h.Cards()[i] == Jack && k <= 12
    ensures forall g | g in GeneratedAt(h, i, k) :: JackFree(g) && Agrees(h, g)
    decreases Jacks(h), 0, k
  {
    if k > 0 {
      GeneratedAtSound(h, i, k - 1);
      var child := With(h, i, Replacements[k - 1]);
      ReplaceJack(h, i, Replacements[k - 1]);
      GeneratedSound(child);
      assert Agrees(h, child);
    }
  }

  lemma {:induction false} GeneratedUpToGrows(h: Hand, i: nat, j: nat)
    requires i <= j <= 5
    ensures GeneratedUpTo(h, i) <= GeneratedUpTo(h, j)
    decreases j
  {
    if i < j {
      GeneratedUpToGrows(h, i, j - 1);
    }
  }

  lemma {:induction false} GeneratedAtGrows(h: Hand, i: nat, k: nat, l: nat)
    requires i < 5 && h.Cards()[i] == Jack && k <= l <= 12
    ensures GeneratedAt(h, i, k) <= GeneratedAt(h, i, l)
    decreases l
  {
    if k < l {
      GeneratedAtGrows(h, i, k, l - 1);
    }
  }

  /** The inner loop for the Jack at i collects what every replacement generates. */
  lemma InGeneratedAt(h: Hand, i: nat, k: nat, g: Hand)
    requires i < 5 && h.Cards()[i] == Jack && k < 12
    requires g in Generated(With(h, i, Replacements[k]))
    ensures g in GeneratedAt(h, i, 12)
  {
    var before := GeneratedAt(h, i, k + 1);
    assert before == GeneratedAt(h, i, k) + Generated(With(h, i, Replacements[k]));
    assert g in before;
    GeneratedAtGrows(h, i, k + 1, 12);
    PrefixMembers(before, GeneratedAt(h, i, 12), g);
  }

  lemma PrefixMembers(a: seq<Hand>, b: seq<Hand>, g: Hand)
    requires a <= b && g in a
    ensures g in b
  {
    var j :| 0 <= j < |a| && a[j] == g;
    assert b[j] == g;
  }

  /** The outer loop collects what the inner loop adds for every Jack. */
  lemma InGeneratedUpTo(h: Hand, i: nat, g: Hand)
    requires i < 5 && h.Cards()[i] == Jack
    requires g in GeneratedAt(h, i, 12)
    ensures g in Generated(h)
  {
    var before := GeneratedUpTo(h, i + 1);
    assert before == GeneratedUpTo(h, i) + GeneratedAt(h, i, 12);
    assert g in before;
    GeneratedUpToGrows(h, i + 1, 5);
    PrefixMembers(before, GeneratedUpTo(h, 5), g);
    assert Jack in h.Cards();
  }

  /** Whatever a one-Jack replacement generates, h generates too. */
  lemma GeneratedByChild(h: Hand, i: nat, k: nat, g: Hand)
    requires i < 5 && h.Cards()[i] == Jack && k < 12
    requires g in Generated(With(h, i, Replacements[k]))
    ensures g in Generated(h)
  {
    InGeneratedAt(h, i, k, g);
    InGeneratedUpTo(h, i, g);
  }

  lemma AgreesWithChild(h: Hand, g: Hand, i: nat)
    requires i < 5 && h.Cards()[i] == Jack && Agrees(h, g)
    ensures Agrees(With(h, i, g.Cards()[i]), g)
  {
  }

  /** Every Jack-free hand that keeps the non-Jack cards of h is generated. */
  lemma {:induction false} GeneratedComplete(h: Hand, g: Hand)
    requires JackFree(g) && Agrees(h, g)
    ensures g in Generated(h)
    decreases Jacks(h)
  {
    var cs := h.Cards();
    if Jack !in cs {
      CardsInjective(g, h);
    } else {
      var i :| 0 <= i < 5 && cs[i] == Jack;
      var c := g.Cards()[i];
      ReplacementsCover(c);
      var k :| 0 <= k < 12 && Replacements[k] == c;
      ReplaceJack(h, i, c);
      AgreesWithChild(h, g, i);
      GeneratedComplete(With(h, i, c), g);
      GeneratedByChild(h, i, k, g);
    }
  }

  /** The hand with every Jack replaced by a Two. */
  function NoJacks(h: Hand): (g: Hand)
    ensures JackFree(g) && Agrees(h, g)
  {
    var f := (c: Card) => if c == Jack then Two else c;
    Hand(f(h.c0), f(h.c1), f(h.c2), f(h.c3), f(h.c4))
  }

  /** `gen_hands` never returns an empty list, so the `unwrap` in `best` cannot fail. */
  lemma GeneratedNonEmpty(h: Hand)
    ensures |Generated(h)| > 0
  {
    GeneratedComplete(h, NoJacks(h));
  }

  /** `Iterator::max_by` under `Hand::cmp1`: fold from the left, keeping the running
      maximum only when it is Greater than the next hand, so the last of equal maxima wins. */
  function MaxBy(s: seq<Hand>): (r: Hand)
    requires |s| > 0
    ensures r in s
  {
    if |s| == 1 then s[0]
    else
      var m := MaxBy(s[..|s| - 1]);
      var x := s[|s| - 1];
      if HandCmp1(m, x) == Greater then m else x
  }

  /** No hand of the list is above the one `max_by` picks. */
  lemma {:induction false} MaxByIsMaximal(s: seq<Hand>)
    requires |s| > 0
    ensures forall x | x in s :: HandCmp1(x, MaxBy(s)) != Greater
  {
    var r := MaxBy(s);
    if |s| == 1 {
      assert HandCmp1(r, r) == Equal;
    } else {
      var t := s[..|s| - 1];
      var m := MaxBy(t);
      var last := s[|s| - 1];
      assert s == t + [last];
      MaxByIsMaximal(t);
      HandCmp1Reverse(m, last);
      forall x | x in s ensures HandCmp1(x, r) != Greater {
        if x == r {
          assert HandCmp1(x, r) == Equal;
        } else if x != last {
          assert x in t;
          if r == last {
            HandCmp1Transitive(x, m, last);
          }
        }
      }
    }
  }

  /** What `Hand::best` returns. */
  function BestOf(h: Hand): Hand {
    GeneratedNonEmpty(h);
    MaxBy(Generated(h))
  }

  /** `Hand::best`: the maximum under `Hand::cmp1` of the generated hands. */
  method Best(h: Hand) returns (b: Hand)
    ensures b == BestOf(h)
    ensures b in Generated(h)
    ensures forall g | g in Generated(h) :: HandCmp1(g, b) != Greater
  {
    var hands := GenHands(h);
    GeneratedNonEmpty(h);
    MaxByIsMaximal(hands);
    b := MaxBy(hands);
  }

  /** The best hand is a joker substitution of h: Jack-free, keeping every other card,
      and h itself when h has no Jack. */
  lemma BestIsSubstitution(h: Hand)
    ensures JackFree(BestOf(h)) && Agrees(h, BestOf(h))
    ensures JackFree(h) ==> BestOf(h) == h
  {
    GeneratedNonEmpty(h);
    GeneratedSound(h);
  }

  /** No joker substitution of h beats the best hand, so neither does its strength. */
  lemma BestIsStrongest(h: Hand, g: Hand)
    requires JackFree(g) && Agrees(h, g)
    ensures HandCmp1(g, BestOf(h)) != Greater
    ensures StrengthOf(g).Value() <= StrengthOf(BestOf(h)).Value()
  {
    GeneratedComplete(h, g);
    GeneratedNonEmpty(h);
    MaxByIsMaximal(Generated(h));
  }

  /** A comparator whose swapped answer is the reverse answer. */
  ghost predicate Antisymmetric<T(!new)>(cmp: (T, T) -> Ordering) {
    forall a, b :: cmp(a, b) == cmp(b, a).Reverse()
  }

  /** A comparator whose "not Greater" is transitive. */
  ghost predicate Transitive<T(!new)>(cmp: (T, T) -> Ordering) {
    forall a, b, c :: cmp(a, b) != Greater && cmp(b, c) != Greater ==> cmp(a, c) != Greater
  }

  ghost predicate SortedBy<T>(s: seq<T>, cmp: (T, T) -> Ordering) {
    forall i, j | 0 <= i < j < |s| :: cmp(s[i], s[j]) != Greater
  }

  /** Put x before the first element that is Greater than it; elements equal to x stay
      in front of it, which keeps the sort stable. */
  function Insert<T>(s: seq<T>, x: T, cmp: (T, T) -> Ordering): (r: seq<T>)
    ensures |r| == |s| + 1
    ensures multiset(r) == multiset(s) + multiset{x}
  {
    if s == [] then [x]
    else if cmp(s[0], x) == Greater then [x] + s
    else
      assert s == [s[0]] + s[1..];
      [s[0]] + Insert(s[1..], x, cmp)
  }

  /** `slice::sort_by`, as a stable insertion sort of the prefix seen so far. */
  function SortBy<T>(s: seq<T>, cmp: (T, T) -> Ordering): (r: seq<T>)
    ensures |r| == |s|
    ensures multiset(r) == multiset(s)
  {
    if s == [] then []
    else
      assert s == s[..|s| - 1] + [s[|s| - 1]];
      Insert(SortBy(s[..|s| - 1], cmp), s[|s| - 1], cmp)
  }

  lemma {:induction false} InsertSorted<T(!new)>(s: seq<T>, x: T, cmp: (T, T) -> Ordering)
    requires Antisymmetric(cmp) && Transitive(cmp) && SortedBy(s, cmp)
    ensures SortedBy(Insert(s, x, cmp), cmp)
  {
    if s != [] {
      if cmp(s[0], x) == Greater {
        assert cmp(x, s[0]) == Less;
        var r := [x] + s;
        forall i, j | 0 <= i < j < |r| ensures cmp(r[i], r[j]) != Greater {
          if i == 0 && j > 1 {
            assert cmp(s[0], s[j - 1]) != Greater;
          }
        }
      } else {
        InsertSorted(s[1..], x, cmp);
        var r := Insert(s[1..], x, cmp);
        forall y | y in r ensures cmp(s[0], y) != Greater {
          assert y in multiset(r);
        }
        var r' := [s[0]] + r;
        forall i, j | 0 <= i < j < |r'| ensures cmp(r'[i], r'[j]) != Greater {
          if i == 0 {
            assert r'[j] == r[j - 1] && r[j - 1] in r;
          } else {
            assert r'[i] == r[i - 1] && r'[j] == r[j - 1];
          }
        }
      }
    }
  }

  /** The sort returns its input sorted under the comparator. */
  lemma {:induction false} SortBySorted<T(!new)>(s: seq<T>, cmp: (T, T) -> Ordering)
    requires Antisymmetric(cmp) && Transitive(cmp)
    ensures SortedBy(SortBy(s, cmp), cmp)
  {
    if s != [] {
      SortBySorted(s[..|s| - 1], cmp);
      InsertSorted(SortBy(s[..|s| - 1], cmp), s[|s| - 1], cmp);
    }
  }

  /** An element no smaller than everything before it goes to the end. */
  lemma {:induction false} InsertLast<T>(s: seq<T>, x: T, cmp: (T, T) -> Ordering)
    requires forall i | 0 <= i < |s| :: cmp(s[i], x) != Greater
    ensures Insert(s, x, cmp) == s + [x]
  {
    if s != [] {
      InsertLast(s[1..], x, cmp);
    }
  }

  /** Input that is already sorted comes back unchanged: the sort is stable. */
  lemma {:induction false} SortByKeepsSorted<T>(s: seq<T>, cmp: (T, T) -> Ordering)
    requires SortedBy(s, cmp)
    ensures SortBy(s, cmp) == s
  {
    if s != [] {
      var t := s[..|s| - 1];
      SortByKeepsSorted(t, cmp);
      InsertLast(t, s[|s| - 1], cmp);
      assert t + [s[|s| - 1]] == s;
    }
  }

  lemma SortedTail<T>(s: seq<T>, cmp: (T, T) -> Ordering)
    requires s != [] && SortedBy(s, cmp)
    ensures SortedBy(s[1..], cmp)
  {
    forall i, j | 0 <= i < j < |s| - 1 ensures cmp(s[1..][i], s[1..][j]) != Greater {
      assert s[1..][i] == s[i + 1] && s[1..][j] == s[j + 1];
    }
  }

  /** The first elements of two sorted arrangements of the same elements compare Equal. */
  lemma SortedHeads<T(!new)>(a: seq<T>, b: seq<T>, cmp: (T, T) -> Ordering)
    requires Antisymmetric(cmp) && SortedBy(a, cmp) && SortedBy(b, cmp)
    requires multiset(a) == multiset(b) && a != []
    ensures b != [] && cmp(a[0], b[0]) == Equal
  {
    assert |b| == |multiset(b)| == |multiset(a)| == |a|;
    assert a[0] in multiset(b) && b[0] in multiset(a);
    var i :| 0 <= i < |b| && b[i] == a[0];
    var j :| 0 <= j < |a| && a[j] == b[0];
    assert cmp(b[0], a[0]) != Greater by {
      if i == 0 {
        assert cmp(b[0], a[0]) == cmp(a[0], b[0]).Reverse();
      }
    }
    assert cmp(a[0], b[0]) != Greater by {
      if j == 0 {
        assert cmp(a[0], b[0]) == cmp(b[0], a[0]).Reverse();
      }
    }
    assert cmp(a[0], b[0]) == cmp(b[0], a[0]).Reverse();
  }

  /** The comparator answers Equal only for identical elements of s. */
  ghost predicate EqualMeansSame<T>(s: seq<T>, cmp: (T, T) -> Ordering) {
    forall x, y | x in s && y in s && cmp(x, y) == Equal :: x == y
  }

  /** Two sorted arrangements of the same elements are the same when the comparator
      answers Equal only for identical elements. */
  lemma {:induction false} SortedUnique<T(!new)>(a: seq<T>, b: seq<T>, cmp: (T, T) -> Ordering)
    requires Antisymmetric(cmp) && SortedBy(a, cmp) && SortedBy(b, cmp)
    requires multiset(a) == multiset(b)
    requires EqualMeansSame(a, cmp)
    ensures a == b
  {
    if a == [] {
      assert |b| == |multiset(b)| == 0;
    } else {
      SortedHeads(a, b, cmp);
      SortedTails(a, b, cmp);
      SortedUnique(a[1..], b[1..], cmp);
      assert a == [a[0]] + a[1..] && b == [b[0]] + b[1..];
    }
  }

  lemma SortedTails<T(!new)>(a: seq<T>, b: seq<T>, cmp: (T, T) -> Ordering)
    requires SortedBy(a, cmp) && SortedBy(b, cmp) && EqualMeansSame(a, cmp)
    requires multiset(a) == multiset(b) && a != [] && b != [] && cmp(a[0], b[0]) == Equal
    ensures a[0] == b[0]
    ensures SortedBy(a[1..], cmp) && SortedBy(b[1..], cmp) && EqualMeansSame(a[1..], cmp)
    ensures multiset(a[1..]) == multiset(b[1..])
  {
    assert b[0] in multiset(a);
    assert a == [a[0]] + a[1..] && b == [b[0]] + b[1..];
    assert multiset(a[1..]) == multiset(a) - multiset{a[0]};
    assert multiset(b[1..]) == multiset(b) - multiset{b[0]};
    SortedTail(a, cmp);
    SortedTail(b, cmp);
    assert forall x | x in a[1..] :: x in a;
  }

  /** Σ bid · (i + 1): every bid times its 1-based position. */
  function Winnings(bids: seq<nat>): nat {
    if bids == [] then 0 else Winnings(bids[..|bids| - 1]) + bids[|bids| - 1] * |bids|
  }

  function Sum(bids: seq<nat>): nat {
    if bids == [] then 0 else Sum(bids[..|bids| - 1]) + bids[|bids| - 1]
  }

  /** Every bid is paid at least once and at most |bids| times. */
  lemma {:induction false} WinningsBounds(bids: seq<nat>)
    ensures Sum(bids) <= Winnings(bids) <= |bids| * Sum(bids)
  {
    if bids != [] {
      var t := bids[..|bids| - 1];
      var x := bids[|bids| - 1];
      var n := |bids|;
      WinningsBounds(t);
      var w, st := Winnings(t), Sum(t);
      assert Winnings(bids) == w + x * n;
      assert Sum(bids) == st + x;
      MulMonotone(|t|, n, st);
      MulMonotone(1, n, x);
      Distribute(n, st, x);
    }
  }

  lemma MulMonotone(a: nat, b: nat, c: nat)
    requires a <= b
    ensures a * c <= b * c
  {
  }

  lemma Distribute(a: nat, b: nat, c: nat)
    ensures a * (b + c) == a * b + c * a
  {
  }

  /** The bids of the ranked entries, in rank order. */
  function Bids<T>(s: seq<T>, bid: T -> nat): (r: seq<nat>)
    ensures |r| == |s| && forall i | 0 <= i < |s| :: r[i] == bid(s[i])
  {
    seq(|s|, i requires 0 <= i < |s| => bid(s[i]))
  }

  function PairBid(p: (Hand, nat)): nat { p.1 }

  function EntryCmp1(p: (Hand, nat), q: (Hand, nat)): Ordering {
    HandCmp1(p.0, q.0)
  }

  lemma EntryCmp1Order()
    ensures Antisymmetric(EntryCmp1) && Transitive(EntryCmp1)
  {
    forall p: (Hand, nat), q: (Hand, nat) ensures EntryCmp1(p, q) == EntryCmp1(q, p).Reverse() {
      HandCmp1Reverse(p.0, q.0);
    }
    forall p: (Hand, nat), q: (Hand, nat), r: (Hand, nat) |
      EntryCmp1(p, q) != Greater && EntryCmp1(q, r) != Greater
      ensures EntryCmp1(p, r) != Greater
    {
      HandCmp1Transitive(p.0, q.0, r.0);
    }
  }

  /** `part1`: sort the (hand, bid) pairs ascending by `Hand::cmp1`, then sum bid times rank. */
  function Part1(hands: seq<(Hand, nat)>): nat {
    Winnings(Bids(SortBy(hands, EntryCmp1), PairBid))
  }

  /** The order `part1` ranks by: a permutation of the input, ascending under `Hand::cmp1`. */
  lemma Part1Ranking(hands: seq<(Hand, nat)>)
    ensures multiset(SortBy(hands, EntryCmp1)) == multiset(hands)
    ensures forall i, j | 0 <= i < j < |hands| ::
      HandCmp1(SortBy(hands, EntryCmp1)[i].0, SortBy(hands, EntryCmp1)[j].0) != Greater
  {
    EntryCmp1Order();
    SortBySorted(hands, EntryCmp1);
  }

  /** The (hand, bid, best hand) triples `part2` sorts. */
  function Jokered(hands: seq<(Hand, nat)>): (r: seq<(Hand, nat, Hand)>)
    ensures |r| == |hands|
  {
    seq(|hands|, i requires 0 <= i < |hands| => (hands[i].0, hands[i].1, BestOf(hands[i].0)))
  }

  function TripleBid(p: (Hand, nat, Hand)): nat { p.1 }

  function EntryCmp2(p: (Hand, nat, Hand), q: (Hand, nat, Hand)): Ordering {
    JokerCmp(p.0, p.2, q.0, q.2)
  }

  lemma EntryCmp2Order()
    ensures Antisymmetric(EntryCmp2) && Transitive(EntryCmp2)
  {
    forall p: (Hand, nat, Hand), q: (Hand, nat, Hand) ensures EntryCmp2(p, q) == EntryCmp2(q, p).Reverse() {
      JokerCmpReverse(p.0, p.2, q.0, q.2);
    }
    forall p: (Hand, nat, Hand), q: (Hand, nat, Hand), r: (Hand, nat, Hand) |
      EntryCmp2(p, q) != Greater && EntryCmp2(q, r) != Greater
      ensures EntryCmp2(p, r) != Greater
    {
      JokerCmpTransitive(p.0, p.2, q.0, q.2, r.0, r.2);
    }
  }

  function Part2Value(hands: seq<(Hand, nat)>): nat {
    Winnings(Bids(SortBy(Jokered(hands), EntryCmp2), TripleBid))
  }

  /** `part2`: pair every hand with its best joker substitution, sort by `cmp`, then sum
      bid times rank. */
  method Part2(hands: seq<(Hand, nat)>) returns (total: nat)
    ensures total == Part2Value(hands)
  {
    var entries: seq<(Hand, nat, Hand)> := [];
    for k := 0 to |hands|
      invariant entries == Jokered(hands[..k])
    {
      var b := Best(hands[k].0);
      entries := entries + [(hands[k].0, hands[k].1, b)];
    }
    assert hands[..|hands|] == hands;
    total := Winnings(Bids(SortBy(entries, EntryCmp2), TripleBid));
  }

  /** The (hand, bid) parts of the triples. */
  function Unjokered(s: seq<(Hand, nat, Hand)>): (r: seq<(Hand, nat)>)
    ensures |r| == |s|
  {
    seq(|s|, i requires 0 <= i < |s| => (s[i].0, s[i].1))
  }

  lemma UnjokeredAppend(a: seq<(Hand, nat, Hand)>, b: seq<(Hand, nat, Hand)>)
    ensures Unjokered(a + b) == Unjokered(a) + Unjokered(b)
  {
  }

  /** Rearranging the triples rearranges their (hand, bid) parts the same way. */
  lemma {:induction false} UnjokeredPermutation(a: seq<(Hand, nat, Hand)>, b: seq<(Hand, nat, Hand)>)
    requires multiset(a) == multiset(b)
    ensures multiset(Unjokered(a)) == multiset(Unjokered(b))
    decreases |a|
  {
    if a != [] {
      var x := a[0];
      assert x in multiset(b);
      var k :| 0 <= k < |b| && b[k] == x;
      var b' := b[..k] + b[k + 1..];
      assert b == b[..k] + [x] + b[k + 1..];
      assert a == [x] + a[1..];
      assert multiset(b) == multiset(b[..k]) + multiset{x} + multiset(b[k + 1..]);
      assert multiset(a) == multiset{x} + multiset(a[1..]);
      assert multiset(b') == multiset(b[..k]) + multiset(b[k + 1..]);
      assert multiset(b') == multiset(b) - multiset{x} == multiset(a) - multiset{x} == multiset(a[1..]);
      UnjokeredPermutation(a[1..], b');
      UnjokeredAppend([x], a[1..]);
      UnjokeredAppend(b[..k], [x]);
      UnjokeredAppend(b[..k] + [x], b[k + 1..]);
      UnjokeredAppend(b[..k], b[k + 1..]);
    }
  }

  /** The order `part2` ranks by: the input's (hand, bid) pairs, rearranged, ascending under
      `cmp`, each carrying the best joker substitution of its own hand. */
  lemma Part2Ranking(hands: seq<(Hand, nat)>)
    ensures multiset(Unjokered(SortBy(Jokered(hands), EntryCmp2))) == multiset(hands)
    ensures forall t | t in SortBy(Jokered(hands), EntryCmp2) :: t.2 == BestOf(t.0)
    ensures forall i, j | 0 <= i < j < |hands| ::
      JokerCmp(SortBy(Jokered(hands), EntryCmp2)[i].0, SortBy(Jokered(hands), EntryCmp2)[i].2,
               SortBy(Jokered(hands), EntryCmp2)[j].0, SortBy(Jokered(hands), EntryCmp2)[j].2) != Greater
  {
    var sorted := SortBy(Jokered(hands), EntryCmp2);
    EntryCmp2Order();
    SortBySorted(Jokered(hands), EntryCmp2);
    UnjokeredPermutation(sorted, Jokered(hands));
    assert Unjokered(Jokered(hands)) == hands;
    forall t | t in sorted ensures t.2 == BestOf(t.0) {
      assert t in multiset(Jokered(hands));
    }
  }

  /** Already ascending input is paid in its own order. */
  lemma Part1OfSorted(hands: seq<(Hand, nat)>)
    requires forall i, j | 0 <= i < j < |hands| :: HandCmp1(hands[i].0, hands[j].0) != Greater
    ensures Part1(hands) == Winnings(Bids(hands, PairBid))
  {
    SortByKeepsSorted(hands, EntryCmp1);
  }

  /** When no hand appears with two different bids, the answer of `part1` does not depend
      on the order of the input lines. */
  lemma Part1Permutation(h1: seq<(Hand, nat)>, h2: seq<(Hand, nat)>)
    requires multiset(h1) == multiset(h2)
    requires forall p, q | p in h1 && q in h1 && p.0 == q.0 :: p == q
    ensures Part1(h1) == Part1(h2)
  {
    var s1, s2 := SortBy(h1, EntryCmp1), SortBy(h2, EntryCmp1);
    EntryCmp1Order();
    SortBySorted(h1, EntryCmp1);
    SortBySorted(h2, EntryCmp1);
    forall x, y | x in s1 && y in s1 && EntryCmp1(x, y) == Equal ensures x == y {
      assert x in multiset(h1) && y in multiset(h1);
      HandCmp1Meaning(x.0, y.0);
    }
    SortedUnique(s1, s2, EntryCmp1);
  }
}
