/** Day 3: an engine schematic. Numbers and symbols are located by row and
    column; a number is a part number for each symbol next to it, and a `*`
    next to exactly two numbers is a gear whose ratio is their product. */
module Day03 {
  import opened Text

  /** A number found in the schematic: its value, its row and its first and last column. */
  datatype Number = Number(num: nat, row: int, colStart: int, colEnd: int)

  datatype Symbol = Symbol(character: char, row: int, col: int)

  function Abs(x: int): nat {
    if x < 0 then -x else x
  }

  /** `neighbors`: rows at most one apart, and the symbol's column within one of the
      number's first or its last column. */
  predicate Neighbors(number: Number, symbol: Symbol) {
    if Abs(number.row - symbol.row) > 1 then false
    else if Abs(number.colStart - symbol.col) <= 1 then true
    else if Abs(number.colEnd - symbol.col) <= 1 then true
    else false
  }

  /** The symbol touches one of the number's cells, diagonals included. */
  predicate TouchesBox(number: Number, symbol: Symbol) {
    Abs(number.row - symbol.row) <= 1 && number.colStart - 1 <= symbol.col <= number.colEnd + 1
  }

  /** For numbers up to four digits wide `neighbors` is exactly "touches a cell of the number". */
  lemma NeighborsIsTouching(number: Number, symbol: Symbol)
    requires number.colStart <= number.colEnd <= number.colStart + 3
    ensures Neighbors(number, symbol) <==> TouchesBox(number, symbol)
  {
  }

  /** Only the first and last columns are checked: a symbol below the middle digit of a
      five-digit number is not a neighbour. */
  lemma NeighborsSkipsMiddleColumns()
    ensures TouchesBox(Number(12345, 0, 0, 4), Symbol('*', 1, 2))
    ensures !Neighbors(Number(12345, 0, 0, 4), Symbol('*', 1, 2))
  {
  }

  /** The characters the regex `[^\.\d]` matches: anything but '.' and a decimal digit. */
  predicate IsSymbolChar(c: char) {
    c != '.' && !IsDigit(c)
  }

  /** The symbols of one line, left to right, each with its row and the byte offset
      at which it starts. */
  function LineSymbols(line: string, row: nat): seq<Symbol> {
    if line == [] then []
    else
      var c := |line| - 1;
      LineSymbols(line[..c], row) + if IsSymbolChar(line[c]) then [Symbol(line[c], row, Utf8Width(line[..c]))] else []
  }

  /** Every symbol of the schematic, line by line. */
  function Symbols(lines: seq<string>): seq<Symbol> {
    if lines == [] then []
    else Symbols(lines[..|lines| - 1]) + LineSymbols(lines[|lines| - 1], |lines| - 1)
  }

  /** Only symbol characters are recorded, each with its own row and the byte offset of
      its position in the line. */
  lemma {:induction false} LineSymbolsSound(line: string, row: nat, k: nat)
    requires k < |LineSymbols(line, row)|
    ensures var s := LineSymbols(line, row)[k];
      && s.row == row && IsSymbolChar(s.character)
      && exists i | 0 <= i < |line| :: line[i] == s.character && s.col == Utf8Width(line[..i])
  {
    var c := |line| - 1;
    var prev := LineSymbols(line[..c], row);
    if k < |prev| {
      LineSymbolsSound(line[..c], row, k);
      var i :| 0 <= i < c && line[..c][i] == prev[k].character && prev[k].col == Utf8Width(line[..c][..i]);
      assert line[..c][..i] == line[..i];
    }
  }

  /** Every symbol character of the line is recorded, at its byte offset. */
  lemma {:induction false} LineSymbolsComplete(line: string, row: nat, c: nat)
    requires c < |line| && IsSymbolChar(line[c])
    ensures Symbol(line[c], row, Utf8Width(line[..c])) in LineSymbols(line, row)
  {
    var last := |line| - 1;
    if c < last {
      LineSymbolsComplete(line[..last], row, c);
      assert line[..last][..c] == line[..c];
    }
  }

  /** The scan records left to right, each match once: the columns strictly increase
      along the list. */
  lemma {:induction false} LineSymbolsIncreasing(line: string, row: nat)
    ensures forall i, j | 0 <= i < j < |LineSymbols(line, row)| ::
      LineSymbols(line, row)[i].col < LineSymbols(line, row)[j].col
  {
    if line != [] {
      var c := |line| - 1;
      var prev := LineSymbols(line[..c], row);
      LineSymbolsIncreasing(line[..c], row);
      forall k | 0 <= k < |prev| ensures prev[k].col < Utf8Width(line[..c]) {
        LineSymbolsSound(line[..c], row, k);
        var i :| 0 <= i < c && line[..c][i] == prev[k].character && prev[k].col == Utf8Width(line[..c][..i]);
        Utf8WidthGrows(line[..c], i, c);
        assert line[..c][..c] == line[..c];
      }
    }
  }

  /** `find_symbols` records exactly the characters that are neither '.' nor a digit:
      each recorded symbol is such a character of its row, at the byte offset where it
      starts, every such character is recorded, and the list is in scan order (by row,
      then by column, strictly), so no character is recorded twice. */
  lemma {:induction false} SymbolsExact(lines: seq<string>)
    ensures forall s | s in Symbols(lines) ::
      && 0 <= s.row < |lines| && IsSymbolChar(s.character)
      && exists i | 0 <= i < |lines[s.row]| :: lines[s.row][i] == s.character && s.col == Utf8Width(lines[s.row][..i])
    ensures forall row, c | 0 <= row < |lines| && 0 <= c < |lines[row]| && IsSymbolChar(lines[row][c]) ::
      Symbol(lines[row][c], row, Utf8Width(lines[row][..c])) in Symbols(lines)
    ensures forall i, j | 0 <= i < j < |Symbols(lines)| ::
      var a, b := Symbols(lines)[i], Symbols(lines)[j];
      a.row < b.row || (a.row == b.row && a.col < b.col)
  {
    if lines != [] {
      var n := |lines| - 1;
      var init := lines[..n];
      SymbolsExact(init);
      var here := LineSymbols(lines[n], n);
      LineSymbolsIncreasing(lines[n], n);
      var before := Symbols(init);
      forall k | 0 <= k < |here| ensures here[k].row == n {
        LineSymbolsSound(lines[n], n, k);
      }
      forall k | 0 <= k < |before| ensures before[k].row < n {
        assert before[k] in before;
      }
      forall s | s in here
        ensures && s.row == n && IsSymbolChar(s.character)
                && exists i | 0 <= i < |lines[n]| :: lines[n][i] == s.character && s.col == Utf8Width(lines[n][..i])
      {
        var k :| 0 <= k < |here| && here[k] == s;
        LineSymbolsSound(lines[n], n, k);
      }
      forall row, c | 0 <= row < |lines| && 0 <= c < |lines[row]| && IsSymbolChar(lines[row][c])
        ensures Symbol(lines[row][c], row, Utf8Width(lines[row][..c])) in Symbols(lines)
      {
        if row == n {
          LineSymbolsComplete(lines[n], n, c);
        } else {
          assert lines[row] == init[row];
        }
      }
      forall s | s in Symbols(init) ensures s.row < |init| && lines[s.row] == init[s.row] {
      }
    }
  }

  /** On an ASCII line the recorded column is the character index. */
  lemma LineSymbolsAscii(line: string, row: nat, c: nat)
    requires IsAscii(line) && c < |line| && IsSymbolChar(line[c])
    ensures Symbol(line[c], row, c) in LineSymbols(line, row)
  {
    LineSymbolsComplete(line, row, c);
    assert IsAscii(line[..c]);
    Utf8WidthAscii(line[..c]);
  }

  /** `find_symbols` as a character scan: push every symbol character with its line index
      and the byte offset of its match, which advances by each character's UTF-8 length. */
  method FindSymbols(lines: seq<string>) returns (result: seq<Symbol>)
    ensures result == Symbols(lines)
  {
    result := [];
    for i := 0 to |lines|
      invariant result == Symbols(lines[..i])
    {
      assert lines[..i + 1][..i] == lines[..i];
      var line := lines[i];
      ghost var before := result;
      var offset := 0;
      for c := 0 to |line|
        invariant result == before + LineSymbols(line[..c], i)
        invariant offset == Utf8Width(line[..c])
      {
        assert line[..c + 1][..c] == line[..c];
        if IsSymbolChar(line[c]) {
          result := result + [Symbol(line[c], i, offset)];
        }
        offset := offset + Utf8Len(line[c]);
      }
      assert line[..|line|] == line;
    }
    assert lines[..|lines|] == lines;
  }

  /** The number of symbols next to a number. */
  function AdjacentCount(number: Number, symbols: seq<Symbol>): (n: nat)
    ensures n <= |symbols|
  {
    if symbols == [] then 0
    else AdjacentCount(number, symbols[..|symbols| - 1]) + if Neighbors(number, symbols[|symbols| - 1]) then 1 else 0
  }

  /** A number's contribution to part 1: its value once per neighbouring symbol. */
  function NumberTotal(number: Number, symbols: seq<Symbol>): nat {
    if symbols == [] then 0
    else NumberTotal(number, symbols[..|symbols| - 1]) + if Neighbors(number, symbols[|symbols| - 1]) then number.num else 0
  }

  /** A number next to k symbols is counted k times. */
  lemma {:induction false} NumberTotalCountsEachSymbol(number: Number, symbols: seq<Symbol>)
    ensures NumberTotal(number, symbols) == number.num * AdjacentCount(number, symbols)
  {
    if symbols != [] {
      NumberTotalCountsEachSymbol(number, symbols[..|symbols| - 1]);
    }
  }

  function PartSum(numbers: seq<Number>, symbols: seq<Symbol>): nat {
    if numbers == [] then 0
    else PartSum(numbers[..|numbers| - 1], symbols) + NumberTotal(numbers[|numbers| - 1], symbols)
  }

  /** `part1`: for every number and every symbol, add the number when they are neighbours. */
  method Part1(numbers: seq<Number>, symbols: seq<Symbol>) returns (result: nat)
    ensures result == PartSum(numbers, symbols)
  {
    result := 0;
    for i := 0 to |numbers|
      invariant result == PartSum(numbers[..i], symbols)
    {
      assert numbers[..i + 1][..i] == numbers[..i];
      var n := numbers[i];
      ghost var before := result;
      for j := 0 to |symbols|
        invariant result == before + NumberTotal(n, symbols[..j])
      {
        assert symbols[..j + 1][..j] == symbols[..j];
        if Neighbors(n, symbols[j]) {
          result := result + n.num;
        }
      }
      assert symbols[..|symbols|] == symbols;
    }
    assert numbers[..|numbers|] == numbers;
  }

  /** The values of the numbers next to a symbol, in the numbers' order
      (the filter and map of `part2`). */
  function AdjacentNums(numbers: seq<Number>, symbol: Symbol): (r: seq<nat>)
    ensures |r| <= |numbers|
  {
    if numbers == [] then []
    else
      var last := numbers[|numbers| - 1];
      AdjacentNums(numbers[..|numbers| - 1], symbol) + if Neighbors(last, symbol) then [last.num] else []
  }

  /** Each value collected for a symbol belongs to a number next to it. */
  lemma {:induction false} AdjacentNumsSound(numbers: seq<Number>, symbol: Symbol, x: nat)
    requires x in AdjacentNums(numbers, symbol)
    ensures exists n | n in numbers :: Neighbors(n, symbol) && n.num == x
  {
    var init, last := numbers[..|numbers| - 1], numbers[|numbers| - 1];
    if x in AdjacentNums(init, symbol) {
      AdjacentNumsSound(init, symbol, x);
      var n :| n in init && Neighbors(n, symbol) && n.num == x;
      assert n in numbers;
    } else {
      assert last in numbers && Neighbors(last, symbol) && last.num == x;
    }
  }

  /** The positions in `numbers` of the numbers next to a symbol. */
  function NeighbourSet(numbers: seq<Number>, symbol: Symbol): set<nat> {
    set k: nat | k < |numbers| && Neighbors(numbers[k], symbol)
  }

  lemma NeighbourSetStep(numbers: seq<Number>, symbol: Symbol)
    requires numbers != []
    ensures var n := |numbers| - 1;
      NeighbourSet(numbers, symbol)
        == NeighbourSet(numbers[..n], symbol) + if Neighbors(numbers[n], symbol) then {n} else {}
    ensures |numbers| - 1 !in NeighbourSet(numbers[..|numbers| - 1], symbol)
  {
    var n := |numbers| - 1;
    assert forall k | 0 <= k < n :: numbers[..n][k] == numbers[k];
  }

  /** One value is collected per neighbouring number, so `|adjacent| == 2` means exactly
      two numbers are next to the symbol. */
  lemma {:induction false} AdjacentNumsCount(numbers: seq<Number>, symbol: Symbol)
    ensures |AdjacentNums(numbers, symbol)| == |NeighbourSet(numbers, symbol)|
  {
    if numbers != [] {
      NeighbourSetStep(numbers, symbol);
      AdjacentNumsCount(numbers[..|numbers| - 1], symbol);
    }
  }

  /** With exactly one neighbouring number, its value is all that is collected. */
  lemma {:induction false} AdjacentNumsSingle(numbers: seq<Number>, symbol: Symbol, i: nat)
    requires NeighbourSet(numbers, symbol) == {i}
    ensures i < |numbers| && AdjacentNums(numbers, symbol) == [numbers[i].num]
  {
    var n := |numbers| - 1;
    assert i in NeighbourSet(numbers, symbol);
    NeighbourSetStep(numbers, symbol);
    if i == n {
      AdjacentNumsCount(numbers[..n], symbol);
    } else {
      AdjacentNumsSingle(numbers[..n], symbol, i);
    }
  }

  /** With exactly two neighbouring numbers, their values are collected in their order. */
  lemma {:induction false} AdjacentNumsPair(numbers: seq<Number>, symbol: Symbol, i: nat, j: nat)
    requires i < j && NeighbourSet(numbers, symbol) == {i, j}
    ensures j < |numbers| && AdjacentNums(numbers, symbol) == [numbers[i].num, numbers[j].num]
  {
    var n := |numbers| - 1;
    assert j in NeighbourSet(numbers, symbol);
    NeighbourSetStep(numbers, symbol);
    if j == n {
      AdjacentNumsSingle(numbers[..n], symbol, i);
    } else {
      AdjacentNumsPair(numbers[..n], symbol, i, j);
    }
  }

  /** A `*` with exactly two neighbouring numbers is worth their product; anything else is worth 0. */
  function GearRatio(numbers: seq<Number>, symbol: Symbol): nat {
    var adjacent := AdjacentNums(numbers, symbol);
    if symbol.character == '*' && |adjacent| == 2 then adjacent[0] * adjacent[1] else 0
  }

  /** The gear rule: a `*` next to exactly the numbers at positions i < j is worth their
      product; a symbol that is not `*`, or has any other number of neighbours, is worth 0. */
  lemma GearRatioMeaning(numbers: seq<Number>, symbol: Symbol)
    ensures symbol.character != '*' || |NeighbourSet(numbers, symbol)| != 2 ==> GearRatio(numbers, symbol) == 0
    ensures forall i: nat, j: nat | i < j && symbol.character == '*' && NeighbourSet(numbers, symbol) == {i, j} ::
      j < |numbers| && GearRatio(numbers, symbol) == numbers[i].num * numbers[j].num
  {
    AdjacentNumsCount(numbers, symbol);
    forall i: nat, j: nat | i < j && symbol.character == '*' && NeighbourSet(numbers, symbol) == {i, j}
      ensures j < |numbers| && GearRatio(numbers, symbol) == numbers[i].num * numbers[j].num
    {
      AdjacentNumsPair(numbers, symbol, i, j);
    }
  }

  function GearSum(numbers: seq<Number>, symbols: seq<Symbol>): nat {
    if symbols == [] then 0
    else GearSum(numbers, symbols[..|symbols| - 1]) + GearRatio(numbers, symbols[|symbols| - 1])
  }

  /** A symbol that is not `*` never contributes to part 2. */
  lemma {:induction false} GearSumOnlyStars(numbers: seq<Number>, symbols: seq<Symbol>)
    requires forall k | 0 <= k < |symbols| :: symbols[k].character != '*'
    ensures GearSum(numbers, symbols) == 0
  {
    if symbols != [] {
      GearSumOnlyStars(numbers, symbols[..|symbols| - 1]);
    }
  }

  /** No numbers or no symbols give 0 in both parts. */
  lemma {:induction false} EmptyGivesZero(numbers: seq<Number>, symbols: seq<Symbol>)
    requires numbers == [] || symbols == []
    ensures PartSum(numbers, symbols) == 0 && GearSum(numbers, symbols) == 0
  {
    if numbers != [] {
      EmptyGivesZero(numbers[..|numbers| - 1], symbols);
    }
    if symbols != [] {
      EmptyGivesZero(numbers, symbols[..|symbols| - 1]);
      assert AdjacentNums(numbers, symbols[|symbols| - 1]) == [];
    }
  }

  /** `part2`: skip symbols other than `*`; add a·b when exactly two numbers (a, b) are neighbours. */
  method Part2(numbers: seq<Number>, symbols: seq<Symbol>) returns (result: nat)
    ensures result == GearSum(numbers, symbols)
  {
    result := 0;
    for k := 0 to |symbols|
      invariant result == GearSum(numbers, symbols[..k])
    {
      assert symbols[..k + 1][..k] == symbols[..k];
      var s := symbols[k];
      if s.character != '*' {
        continue;
      }
      var adjacent := AdjacentNums(numbers, s);
      if |adjacent| == 2 {
        result := result + adjacent[0] * adjacent[1];
      }
    }
    assert symbols[..|symbols|] == symbols;
  }
}
