# Advent of Code 2023, days 1–7, in Dafny

This project models the puzzle solvers of days 1 to 7 of a Rust Advent of Code 2023
repository and proves properties of them. There is one module per day (`Day01` … `Day07`)
and two shared modules:

- `Wrappers` holds `Option` and `Result`.
- `Text` holds the Rust standard-library text behaviour the solvers rely on:
  - `char::is_digit(10)`
  - `str::parse` for unsigned integers (an optional `+`, decimal digits, a value no larger than the type's maximum)
  - `str::split_whitespace` over Unicode White_Space.

The days are:

- **Day 1, calibration values.** A line's number tokens are the words `one`..`nine` or a digit 1–9. The line is worth 10·first + second, and the answer is the sum over all lines. The regular expression is modelled by its meaning: the leftmost token, then the last token starting at or after the end of the first one.
- **Day 2, cube game.** Colour-wise maxima over the rounds of a game, the games possible with 12 red, 13 green and 14 blue cubes, and the sum of the maxima's products.
- **Day 3, gear ratios.** The `neighbors` test, the symbol scan (a column is the UTF-8 byte offset of the match, as Rust reports it), the part-number sum and the gear-ratio sum.
- **Day 4, scratch cards.** The multiplicity-keeping list intersection, the power-of-two score, and the cascading copy count on an array updated in place.
- **Day 5, seed recipes.** First-matching-rule offset maps with identity fallback, the fold of recipes over a value, seed pairing, and the minimum over seeds and over every integer of every range.
- **Day 6, boat races.** The two-sided break scan from the midpoint that counts winning hold times, the product over races, and the digit-filtering and prefix-stripping parsers.
- **Day 7, Camel Cards.**
  - Cards, their two rank tables, and hand parsing.
  - Hand strength from the card counts.
  - Card replacement, the recursive joker generator `gen_hands`, and `best` (`max_by`).
  - The two comparators, the stable sort, and the rank-weighted bid sums of both parts.

Imperative code is modelled as methods with loops; `Day04.AddCopies` works in place on an `array`. Each method is proved against a specification: most equal a specification function of their inputs, and `Day05.Part2` is pinned by ensures that characterise its minimum outright. The properties the source promises are proved about those functions. A `panic!`, an `unwrap` of a missing value, and an index out of range are modelled as `None` or `Err` results, not as preconditions.

## Model

| member | source | states |
|---|---|---|
| Text.DigitValue | day06/main.rs:65 | the value of a decimal digit is below 10 |
| Text.DecimalValue | day01/main.rs:5 | a string of k digits denotes a number below 10^k |
| Text.ParseUnsigned | day01/main.rs:5 | `parse::<uN>` succeeds exactly for a digit string, optionally after one `+`, whose value is at most the maximum, and then gives that value; so an over-range value, any non-digit after the optional `+`, the empty string and a lone `+` fail |
| Text.WordLength | day06/main.rs:39 | the run that starts the string holds no whitespace and ends at whitespace or at the end of the string |
| Text.NonWhitespaceAppend | day06/main.rs:39 | dropping whitespace distributes over concatenation |
| Text.NonWhitespaceOfWord | day06/main.rs:39 | a word without whitespace survives dropping whitespace unchanged |
| Text.SplitWhitespace | day06/main.rs:39 | `split_whitespace` yields the maximal runs: non-empty, whitespace-free words such that the input is gap, word, gap, …, word, gap with all-whitespace gaps of which only the first and last may be empty |
| Text.Utf8WidthAscii | day03/main.rs:45 | on ASCII text the byte offset of a position is its character index |
| Text.Utf8WidthGrows | day03/main.rs:45 | byte offsets strictly grow along a string, so distinct positions have distinct offsets |
| Day01.NumToInt | day01/main.rs:4-21 | a digit string within u32 gives its value; `Words[k]` gives k+1; the result is `Ok` exactly when the u32 parse succeeds or the string is a number word |
| Day01.TokenValue | day01/main.rs:4-24 | every token of the pattern converts, to a value from 1 to 9 |
| Day01.MatchWord | day01/main.rs:24 | a matched word is a number word and occurs at the position |
| Day01.MatchWordComplete | day01/main.rs:24 | a number word occurring at the position is matched by the alternation |
| Day01.TokenAt | day01/main.rs:24 | a token found at p is a token of the pattern, occurs at p, and p is inside the line |
| Day01.TokenAtComplete | day01/main.rs:24 | every token of the pattern that occurs at p is found there, so `TokenAt` finds a token exactly where one starts |
| Day01.FindFirst | day01/main.rs:24-30 | the result is the first token position at or after `from`, or `None` when no token starts there |
| Day01.FindLast | day01/main.rs:25 | the result is the last token position in `[from, hi)`, or `None` when there is none |
| Day01.Nums | day01/main.rs:23-46 | `Err` exactly when the line has no token; otherwise both values lie in 1..9 |
| Day01.NumsErrIffNoToken | day01/main.rs:30-45 | `nums` panics exactly when no token of the pattern occurs anywhere in the line |
| Day01.NumsMeaning | day01/main.rs:24-39 | the first value is the leftmost token's; the second is the last token starting at or after the end of the first, or the first value again when there is none |
| Day01.LineValue | day01/main.rs:56 | a line is worth between 11 and 99 |
| Day01.TotalBounds | day01/main.rs:52-57 | n lines sum to between 11·n and 99·n |
| Day01.FailingLine | day01/main.rs:45 | one line without a token makes the whole input fail |
| Day01.TotalStep | day01/main.rs:54-56 | each line adds its own value to the running total |
| Day01.Calibrate | day01/main.rs:52-57 | `Ok` exactly when every line has a token, and then the sum of the line values |
| Day02.Maxima | day02/main.rs:73-85 | each component bounds that colour in every round and is 0 or taken from some round |
| Day02.Maxs | day02/main.rs:73-85 | the loop computes the colour-wise maxima |
| Day02.PossibleIffEveryRound | day02/main.rs:93 | a game fits the 12/13/14 bag exactly when each of its rounds does |
| Day02.Part1 | day02/main.rs:87-99 | the sum of the ids of the possible games |
| Day02.PowerZeroWhenColourMissing | day02/main.rs:106 | a colour absent from every round makes the power 0 |
| Day02.Part2 | day02/main.rs:101-111 | the sum of the powers of the maxima |
| Day03.Neighbors | day03/main.rs:53-67 | `neighbors` itself, with no contract of its own; its meaning is stated by NeighborsIsTouching (touching the number for widths up to four) and NeighborsSkipsMiddleColumns (not beyond) |
| Day03.NeighborsIsTouching | day03/main.rs:53-67 | for numbers at most four digits wide, `neighbors` is exactly "touches a cell of the number" |
| Day03.NeighborsSkipsMiddleColumns | day03/main.rs:58-64 | a symbol below the middle digit of a five-digit number touches it but is not a neighbour |
| Day03.LineSymbolsSound | day03/main.rs:41-46 | each recorded symbol is neither `.` nor a digit, has its own row, and is a character of the line whose column is the UTF-8 byte offset at which it starts |
| Day03.LineSymbolsComplete | day03/main.rs:41-46 | every symbol character of a line is recorded, with its byte offset as column |
| Day03.LineSymbolsIncreasing | day03/main.rs:41-46 | the matches of a line are recorded left to right, each once: the columns strictly increase along the list |
| Day03.LineSymbolsAscii | day03/main.rs:41-46 | on an ASCII line the recorded column is the character index |
| Day03.SymbolsExact | day03/main.rs:36-51 | the recorded symbols are exactly the non-`.`, non-digit characters, with their row and the byte offset of their start as column, listed once each in scan order (strictly by row, then by column) |
| Day03.FindSymbols | day03/main.rs:36-51 | the scanning loops, advancing a byte offset by each character's UTF-8 length, produce exactly those symbols, line by line |
| Day03.AdjacentCount | day03/main.rs:73-74 | a number has at most as many neighbouring symbols as there are symbols |
| Day03.NumberTotalCountsEachSymbol | day03/main.rs:72-78 | a number next to k symbols is added k times |
| Day03.Part1 | day03/main.rs:69-81 | the nested loops add each number once per neighbouring symbol |
| Day03.AdjacentNums | day03/main.rs:91-94 | the collected values are at most as many as the numbers |
| Day03.AdjacentNumsSound | day03/main.rs:91-94 | each collected value belongs to a number next to the symbol |
| Day03.NeighbourSetStep | day03/main.rs:91-93 | the neighbouring positions of a list are those of its prefix plus the last one when it neighbours |
| Day03.AdjacentNumsCount | day03/main.rs:91-95 | one value is collected per neighbouring number, so `collect_tuple` of two succeeds exactly with two neighbours |
| Day03.AdjacentNumsSingle | day03/main.rs:91-94 | with one neighbouring number, its value alone is collected |
| Day03.AdjacentNumsPair | day03/main.rs:91-95 | with exactly the numbers at positions i < j neighbouring, the pair collected is (num i, num j) |
| Day03.GearRatioMeaning | day03/main.rs:86-98 | a `*` next to exactly the numbers at i < j adds their product; any other symbol or neighbour count adds 0 |
| Day03.GearSumOnlyStars | day03/main.rs:87-89 | symbols other than `*` never contribute |
| Day03.EmptyGivesZero | day03/main.rs:69-102 | no numbers or no symbols give 0 in both parts |
| Day03.Part2 | day03/main.rs:83-102 | the sum of a·b over the `*` symbols with exactly two neighbouring numbers |
| Day04.Common | day04/main.rs:44-53 | the intersection is no longer than `have` |
| Day04.CommonMultiplicity | day04/main.rs:44-53 | each number occurs in the intersection as often as in `have` when it is winning, else not at all |
| Day04.CommonMembers | day04/main.rs:44-53 | a number is in the intersection exactly when it is in both lists |
| Day04.CommonAppend | day04/main.rs:44-53 | the intersection of a + b is that of a followed by that of b, so it keeps `have`'s order |
| Day04.CommonSingle | day04/main.rs:47-49 | a single number is kept exactly when it is a winning number |
| Day04.Intersection | day04/main.rs:44-53 | the loop pushes exactly the common numbers, in `have`'s order |
| Day04.PointsDouble | day04/main.rs:59-61 | one match is worth 1 and each further match doubles the score |
| Day04.Part1 | day04/main.rs:55-65 | the sum of 2^(matches-1) over the cards with a match |
| Day04.Copies | day04/main.rs:73-75 | after i additions, exactly the i entries after k have gained entry k |
| Day04.CascadeGrows | day04/main.rs:70-76 | processing cards never lowers a count |
| Day04.CascadeFinal | day04/main.rs:70-76 | with ids 1..n in order, entries up to k are final once card k is processed |
| Day04.SumAtLeastLength | day04/main.rs:78 | a sum of positive counts is at least their number |
| Day04.TotalAtLeastCards | day04/main.rs:68-78 | the total is at least the number of original cards |
| Day04.OutOfBounds | day04/main.rs:74 | one card indexing past the end makes the whole run fail |
| Day04.CascadeStep | day04/main.rs:71-76 | processing one more in-bounds card extends the cascade by exactly that card's step |
| Day04.AddCopies | day04/main.rs:73-75 | the in-place inner loop leaves the array equal to `Copies` of its old contents |
| Day04.Part2 | day04/main.rs:67-79 | succeeds exactly when no index runs past the end, and then returns the sum of the cascaded counts |
| Day05.Map | day05/main.rs:11-19 | the early-return loop computes the first-matching-rule map |
| Day05.MappedByFirstMatch | day05/main.rs:12-15 | the first rule with `s <= i < s + l` maps i to `d + (i - s)` |
| Day05.MappedIdentity | day05/main.rs:18 | a value no rule covers maps to itself |
| Day05.ZeroLengthRuleInert | day05/main.rs:13 | a rule of length 0 never matches |
| Day05.MappedInTarget | day05/main.rs:13-14 | a mapped value lands inside the matching rule's destination range |
| Day05.MappedKeepsDistance | day05/main.rs:14 | values mapped by the same rule keep their distance |
| Day05.AppliedAppend | day05/main.rs:22-28 | applying a + b is applying a, then b |
| Day05.ApplyRecipes | day05/main.rs:22-28 | the loop folds the recipes over the value in order |
| Day05.Pairs | day05/main.rs:38-43 | pair k is `(seeds[2k], seeds[2k+1])`; an odd last seed is dropped |
| Day05.MinApplied | day05/main.rs:69 | the result is some seed's location and no seed's location is smaller |
| Day05.Part1 | day05/main.rs:68-70 | `None` exactly without seeds, otherwise the minimum location |
| Day05.Part2 | day05/main.rs:72-86 | at most u64::MAX, no larger than any location of a range value, and either u64::MAX or one of those locations |
| Day06.CountBound | day06/main.rs:11-32 | a range of hold times has at most as many wins as values |
| Day06.WinCountBound | day06/main.rs:11-32 | at most `time` winning hold times, none for time 0 |
| Day06.CountAll | day06/main.rs:20-28 | a range of winners counts fully |
| Day06.CountNone | day06/main.rs:16-25 | a range of losers counts nothing |
| Day06.CountSplit | day06/main.rs:15-23 | counting splits at the midpoint |
| Day06.TravelRises | day06/main.rs:15-16 | the distance strictly rises up to the midpoint |
| Day06.TravelFalls | day06/main.rs:23-24 | the distance never rises after the midpoint |
| Day06.LosesBelow | day06/main.rs:15-18 | after the downward scan breaks, every smaller hold time loses |
| Day06.LosesAbove | day06/main.rs:23-26 | after the upward scan breaks, every larger hold time loses |
| Day06.Wins | day06/main.rs:11-32 | the two break scans count exactly the hold times i with `(time - i)·i > distance` |
| Day06.Part1Zero | day06/main.rs:83-85 | no races give 1, and the product is 0 exactly when some race cannot be won |
| Day06.Part1 | day06/main.rs:83-85 | the product of the win counts, with no contract of its own; Part1Zero states when it is 1 and when 0 |
| Day06.Part2 | day06/main.rs:87-89 | the single race's win count |
| Day06.DigitsOf | day06/main.rs:63-66 | the filter keeps only digits, never lengthens the line, and gives nothing for a line without digits; with DigitsOfAppend and DigitsOfDigits this fixes it character by character |
| Day06.DigitsOfAppend | day06/main.rs:63-66 | filtering distributes over concatenation |
| Day06.DigitsOfDigits | day06/main.rs:63-66 | filtering a digit string changes nothing |
| Day06.ParseDigitLine | day06/main.rs:63-68 | succeeds exactly when some digit is present and the value fits u64, and then gives that value |
| Day06.Parse2 | day06/main.rs:60-81 | needs exactly two lines that both parse; time and distance are the digit values of the two lines |
| Day06.ParseAll | day06/main.rs:39-41 | succeeds with one value per word exactly when every word parses |
| Day06.Zip | day06/main.rs:48-55 | race k pairs time k with distance k, as many as the shorter list |
| Day06.Parse1 | day06/main.rs:35-58 | fails exactly without two lines, with a line shorter than its prefix, or with an unparsable word; otherwise zips the parsed words after the prefixes `[5..]` and `[9..]` |
| Day07.FromChar | day07/main.rs:38-57 | exactly the letters `AKQJT98765432` give a card, and that card is written as the letter |
| Day07.FromCharOfToChar | day07/main.rs:38-57 | every card is read back from its letter |
| Day07.CmpBy | day07/main.rs:60-68 | `_cmp` orders two cards as their table ranks are ordered |
| Day07.CardCmp1 | day07/main.rs:70-91 | `cmp1`, with no contract of its own; CmpBy, CardCmpEqual and RanksInjective state its meaning |
| Day07.CardCmp2 | day07/main.rs:93-114 | `cmp2`, with no contract of its own; CmpBy, CardCmpEqual, Cmp2AgreesOffJack and JackLowest state its meaning |
| Day07.CardCmpEqual | day07/main.rs:60-114 | `cmp1` and `cmp2` answer Equal only for the same card, and swapping the cards reverses the answer |
| Day07.Cmp2AgreesOffJack | day07/main.rs:70-114 | `cmp2` agrees with `cmp1` on every pair without a Jack |
| Day07.JackLowest | day07/main.rs:93-114 | under `cmp2` the Jack is below every other card |
| Day07.RanksInjective | day07/main.rs:71-111 | neither table gives two cards the same rank |
| Day07.Hand.Cards | day07/main.rs:219-221 | `to_vec` has five cards |
| Day07.CardsInjective | day07/main.rs:219-221 | hands with the same card list are the same hand |
| Day07.ParseHand | day07/main.rs:117-124 | succeeds exactly for five card letters, and then writes back to the input |
| Day07.ParseHandString | day07/main.rs:117-124 | a hand written out parses back to itself |
| Day07.CountsMultiset | day07/main.rs:128-132 | the counts map holds exactly the hand's cards, each with its multiplicity |
| Day07.Classify | day07/main.rs:134-148 | the decision chain on the counts, with no contract of its own; OneDistinct, FourDistinct and FiveDistinct state its meaning |
| Day07.StrengthOf | day07/main.rs:127-149 | `strength` as Classify of the counts, with no contract of its own; CountsMultiset and StrengthPermutation state its meaning |
| Day07.HandStrength | day07/main.rs:127-149 | the counting loop and decision chain compute the hand's strength |
| Day07.StrengthPermutation | day07/main.rs:127-149 | hands with the same cards in any order have the same strength |
| Day07.CountsKeys | day07/main.rs:134-146 | the map has one key per different card |
| Day07.OneDistinct | day07/main.rs:134-135 | five of a kind exactly when the hand holds a single kind of card |
| Day07.FourDistinct | day07/main.rs:136-145 | four different cards give one pair |
| Day07.FiveDistinct | day07/main.rs:136-147 | five different cards give high card |
| Day07.ElemsBound | day07/main.rs:134 | a list has no more different elements than entries |
| Day07.OneKey | day07/main.rs:136-140 | a card occurring n times leaves room for at most |s| − n other cards |
| Day07.TwoKeys | day07/main.rs:142 | two cards occurring n and k times leave room for at most |s| − n − k others |
| Day07.LexFirstDifference | day07/main.rs:209-216 | the tie-break is decided at the first position whose ranks differ |
| Day07.LexEqual | day07/main.rs:209-216 | the tie-break is Equal exactly when the ranks agree everywhere |
| Day07.LexReverse | day07/main.rs:209-216 | swapping the arguments of the tie-break reverses its answer |
| Day07.LexTransitive | day07/main.rs:209-216 | "not Greater" under the tie-break is transitive |
| Day07.LexEqualCards | day07/main.rs:234-241 | on two hands, the tie-break under either table is Equal exactly for the same hand |
| Day07.HandCmp1 | day07/main.rs:197-217 | `Hand::cmp1`, with no contract of its own; HandCmp1Meaning, HandCmp1Reverse and HandCmp1Transitive state its meaning |
| Day07.HandCmp1Meaning | day07/main.rs:197-217 | different strengths decide by strength; equal strengths fall back to the first differing card under `cmp1`; Equal only for the same hand |
| Day07.HandCmp1Reverse | day07/main.rs:197-217 | `Hand::cmp1(a, b)` is the reverse of `Hand::cmp1(b, a)` |
| Day07.HandCmp1Transitive | day07/main.rs:197-217 | "not Greater" under `Hand::cmp1` is transitive |
| Day07.JokerCmp | day07/main.rs:224-242 | the free `cmp` of part 2, with no contract of its own; JokerCmpEqual, JokerCmpReverse and JokerCmpTransitive state its meaning |
| Day07.JokerCmpEqual | day07/main.rs:224-242 | `cmp` is Equal exactly when the best hands are equally strong and the hands are the same |
| Day07.JokerCmpReverse | day07/main.rs:224-242 | swapping the pairs reverses `cmp` |
| Day07.JokerCmpTransitive | day07/main.rs:224-242 | "not Greater" under `cmp` is transitive |
| Day07.With | day07/main.rs:151-162 | the replaced hand differs from the original only at the given position |
| Day07.Change | day07/main.rs:151-162 | `None` exactly for an index past 4; otherwise only position i changes, to c |
| Day07.ReplacementsCover | day07/main.rs:172-185 | every card but the Jack is among the replacements |
| Day07.ReplaceJack | day07/main.rs:171-186 | replacing a Jack by another card removes exactly one Jack |
| Day07.GenHands | day07/main.rs:164-191 | the recursive nested loops compute `Generated` |
| Day07.GenReplacements | day07/main.rs:172-187 | the inner loop collects what each replacement of one Jack generates |
| Day07.GeneratedSound | day07/main.rs:164-191 | every generated hand is Jack-free and keeps every non-Jack card |
| Day07.GeneratedUpToSound | day07/main.rs:170-189 | the same holds after each step of the outer loop |
| Day07.GeneratedAtSound | day07/main.rs:172-187 | the same holds after each step of the inner loop |
| Day07.GeneratedUpToGrows | day07/main.rs:170-189 | the outer loop only appends |
| Day07.GeneratedAtGrows | day07/main.rs:172-187 | the inner loop only appends |
| Day07.InGeneratedAt | day07/main.rs:172-187 | the inner loop for a Jack collects everything each replacement generates |
| Day07.InGeneratedUpTo | day07/main.rs:169-190 | the outer loop keeps everything the inner loop collects for each Jack |
| Day07.GeneratedByChild | day07/main.rs:186 | whatever a one-Jack replacement generates, the hand generates |
| Day07.AgreesWithChild | day07/main.rs:186 | a substitution of the hand is also one of the replaced hand |
| Day07.GeneratedComplete | day07/main.rs:164-191 | every Jack-free hand that keeps the non-Jack cards is generated |
| Day07.NoJacks | day07/main.rs:164-191 | every hand has a Jack-free substitution |
| Day07.GeneratedNonEmpty | day07/main.rs:164-194 | `gen_hands` never returns an empty list, so the `unwrap` in `best` cannot fail |
| Day07.MaxBy | day07/main.rs:194 | `max_by` returns an element of the list |
| Day07.MaxByIsMaximal | day07/main.rs:194 | no element of the list is above the one `max_by` returns |
| Day07.BestOf | day07/main.rs:193-195 | the best substitution, with no contract of its own; Best, BestIsSubstitution and BestIsStrongest state its meaning |
| Day07.Best | day07/main.rs:193-195 | `best` returns a generated hand that no generated hand exceeds under `Hand::cmp1` |
| Day07.BestIsSubstitution | day07/main.rs:164-195 | the best hand is Jack-free and keeps the non-Jack cards, and a Jack-free hand is its own best |
| Day07.BestIsStrongest | day07/main.rs:193-195 | no joker substitution beats the best hand, so none is stronger |
| Day07.Insert | day07/main.rs:246 | insertion adds exactly the new element |
| Day07.SortBy | day07/main.rs:246 | the sort returns a permutation of its input |
| Day07.InsertSorted | day07/main.rs:246 | inserting into a sorted list keeps it sorted |
| Day07.SortBySorted | day07/main.rs:246 | the sort's result is ascending under an antisymmetric, transitive comparator |
| Day07.InsertLast | day07/main.rs:246 | an element no smaller than all others goes to the end |
| Day07.SortByKeepsSorted | day07/main.rs:246 | already sorted input comes back unchanged |
| Day07.SortedTail | day07/main.rs:246 | the tail of a sorted list is sorted |
| Day07.SortedHeads | day07/main.rs:246 | two sorted arrangements of the same elements start with elements that compare Equal |
| Day07.SortedTails | day07/main.rs:246 | their tails are again sorted arrangements of the same elements |
| Day07.SortedUnique | day07/main.rs:246 | two sorted arrangements of the same elements coincide when Equal means identical |
| Day07.Winnings | day07/main.rs:247 | the sum of bid × rank, with no contract of its own; WinningsBounds bounds it |
| Day07.WinningsBounds | day07/main.rs:247 | every bid is paid at least once and at most n times |
| Day07.EntryCmp1Order | day07/main.rs:246 | the part 1 comparator is antisymmetric and transitive |
| Day07.Part1 | day07/main.rs:244-248 | `part1`, with no contract of its own; Part1Ranking, Part1OfSorted and Part1Permutation state its meaning |
| Day07.Part1Ranking | day07/main.rs:244-248 | `part1` ranks a permutation of its input, ascending under `Hand::cmp1` |
| Day07.Part1OfSorted | day07/main.rs:244-248 | already ascending input is paid in its own order |
| Day07.Part1Permutation | day07/main.rs:244-248 | when no hand has two bids, the answer does not depend on the input order |
| Day07.EntryCmp2Order | day07/main.rs:252 | the part 2 comparator is antisymmetric and transitive |
| Day07.Part2 | day07/main.rs:250-254 | the loop computing best hands, then the sort and the sum, gives `Part2Value` |
| Day07.UnjokeredPermutation | day07/main.rs:251-252 | rearranging the triples rearranges their (hand, bid) parts the same way |
| Day07.Part2Ranking | day07/main.rs:250-254 | `part2` ranks the input's (hand, bid) pairs, rearranged, ascending under `cmp`, each carrying the best joker substitution of its own hand |

## Left out

- File reading, `println!`/`print!`, `main` and the tests against `input.txt` are not modelled. They are I/O and depend on data that is not part of this model.
- The input is taken as a list of lines. `str::lines` itself is not modelled, including its removal of a trailing `\r`.
- Record parsing with regular expressions is not modelled: games (day 2), cards (day 4) and the recipe text of day 5. The records are inputs of the model.
- Day 5's and day 7's `parse` are not modelled, apart from day 5's seed pairing, which `Day05.Pairs` models; their parsed values are inputs.
- Day 3's `find_numbers` is not modelled: it refers to an undefined `line` and `i` (day03/main.rs:24), so it does not compile. Numbers are inputs; their columns are taken to be byte offsets, as `m.start()` would give them.
- Day 1's regular-expression engine is not modelled. `Nums` states the match the pattern denotes (leftmost token, then greedy `.*`) rather than running an engine.
- Fixed-width integers are modelled as unbounded `nat`, so their overflow panics are not modelled. Examples: `s + l` on day05/main.rs:13, `(time - i) * i` on day06/main.rs:16 and 24, u32 sums and `2^k` on day 4, u64 bid sums on day 7.
  - The u32/u64 limits are modelled where they decide a result: the maximum in `str::parse`, and the `u64::MAX` starting value of day 5 part 2.
- Day 6's `ts[5..]` and `ds[9..]` cut at character positions. Rust cuts at byte offsets, so the model assumes ASCII up to the cut.
- Rust's comparison of `Option<&u8>` in `Card::_cmp` is not modelled. Both rank tables hold all thirteen cards, so every lookup succeeds and `CmpBy` compares the ranks directly.
- `HashMap`, `itertools::collect_tuple` and `slice::sort_by` are library internals.
  - The counts map is a Dafny `map`; the model does not depend on its iteration order.
  - `collect_tuple` is modelled by an "exactly n elements" check that fails otherwise.
  - `sort_by` (a stable merge sort) is modelled by a stable insertion sort on `seq`. The lemmas state that its result is a sorted permutation and that sorted input is unchanged.
  - The model does not state that, in general, elements comparing Equal keep their input order.
- Day07.SortBy: the sort is modelled on values, not in place on the `Vec`, so aliasing of the vector is not modelled.
- Day07.OneDistinct, Day07.FourDistinct, Day07.FiveDistinct: only the directions "4 distinct give OnePair" and "5 distinct give HighCard" are stated. The converses (OnePair only with 4 distinct cards, HighCard only with 5) need a sum over all counts and are not stated. Five of a kind is stated both ways.
- Day07.MaxBy: the rule that the last of several equal maxima wins is in the definition but not stated as a property. `Hand::cmp1` is Equal only for identical hands, so it cannot change the result.
