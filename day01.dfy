/** Day 1: calibration values. Each line holds number tokens (a word "one"
    to "nine" or a digit 1-9); its value is ten times the first number plus
    the second, and the answer is the sum over all lines. */
module Day01 {
  import opened Wrappers
  import opened Text

  datatype Error = CannotConvert(text: string) | NoNumbers(line: string)

  const Words: seq<string> := ["one", "two", "three", "four", "five", "six", "seven", "eight", "nine"]

  /** `num_to_int`: a string `str::parse::<u32>` accepts gives its value; otherwise a number
      word gives 1 to 9; anything else panics. */
  function NumToInt(num: string): (r: Result<nat, Error>)
    ensures AllDigits(num) && num != [] && DecimalValue(num) <= U32_MAX ==> r == Ok(DecimalValue(num))
    ensures forall k | 0 <= k < |Words| :: num == Words[k] ==> r == Ok(k + 1)
    ensures r.Ok? <==> ParseUnsigned(num, U32_MAX).Some? || num in Words
  {
    match ParseUnsigned(num, U32_MAX)
    case Some(i) => Ok(i)
    case None =>
      if num == "one" then Ok(1)
      else if num == "two" then Ok(2)
      else if num == "three" then Ok(3)
      else if num == "four" then Ok(4)
      else if num == "five" then Ok(5)
      else if num == "six" then Ok(6)
      else if num == "seven" then Ok(7)
      else if num == "eight" then Ok(8)
      else if num == "nine" then Ok(9)
      else Err(CannotConvert(num))
  }

  /** What the pattern `one|two|...|nine|[1-9]` matches. */
  predicate IsToken(t: string) {
    t in Words || (|t| == 1 && '1' <= t[0] <= '9')
  }

  /** Every token converts, to a value from 1 to 9. */
  lemma TokenValue(t: string)
    requires IsToken(t)
    ensures NumToInt(t).Ok? && 1 <= NumToInt(t).value <= 9
  {
    if t !in Words {
      assert AllDigits(t) && DecimalValue(t) == DigitValue(t[0]);
    }
  }

  predicate StartsWith(line: string, p: nat, w: string) {
    p + |w| <= |line| && line[p..p + |w|] == w
  }

  /** The first of `Words[k..]` that starts at position p, tried in the pattern's order. */
  function MatchWord(line: string, p: nat, k: nat): (r: Option<string>)
    requires k <= |Words|
    ensures r.Some? ==> r.value in Words && StartsWith(line, p, r.value)
    decreases |Words| - k
  {
    if k == |Words| then None
    else if StartsWith(line, p, Words[k]) then Some(Words[k])
    else MatchWord(line, p, k + 1)
  }

  /** The token the pattern matches at position p, if any. */
  function TokenAt(line: string, p: nat): (r: Option<string>)
    ensures r.Some? ==> IsToken(r.value) && StartsWith(line, p, r.value) && p < |line|
  {
    match MatchWord(line, p, 0)
    case Some(w) => Some(w)
    case None => if p < |line| && '1' <= line[p] <= '9' then Some([line[p]]) else None
  }

  /** A number word starting at p is found by the search from any earlier word of the list. */
  lemma {:induction false} MatchWordComplete(line: string, p: nat, k: nat, j: nat)
    requires k <= j < |Words| && StartsWith(line, p, Words[j])
    ensures MatchWord(line, p, k).Some?
    decreases j - k
  {
    if !StartsWith(line, p, Words[k]) {
      MatchWordComplete(line, p, k + 1, j);
    }
  }

  /** Every token that starts at p is found there. */
  lemma TokenAtComplete(line: string, p: nat, t: string)
    requires IsToken(t) && StartsWith(line, p, t)
    ensures TokenAt(line, p).Some?
  {
    if t in Words {
      var j :| 0 <= j < |Words| && Words[j] == t;
      MatchWordComplete(line, p, 0, j);
    } else {
      assert line[p] == line[p..p + 1][0] == t[0];
    }
  }

  /** The leftmost position at or after `from` where a token starts. */
  function FindFirst(line: string, from: nat): (r: Option<nat>)
    requires from <= |line|
    ensures r.Some? ==> from <= r.value < |line| && TokenAt(line, r.value).Some?
    ensures r.Some? ==> forall q | from <= q < r.value :: TokenAt(line, q).None?
    ensures r.None? ==> forall q | from <= q < |line| :: TokenAt(line, q).None?
    decreases |line| - from
  {
    if from == |line| then None
    else if TokenAt(line, from).Some? then Some(from)
    else FindFirst(line, from + 1)
  }

  /** The rightmost position in `[from, hi)` where a token starts: greedy `.*` backtracks
      from the end of the line. */
  function FindLast(line: string, from: nat, hi: nat): (r: Option<nat>)
    requires from <= hi <= |line|
    ensures r.Some? ==> from <= r.value < hi && TokenAt(line, r.value).Some?
    ensures r.Some? ==> forall q | r.value < q < hi :: TokenAt(line, q).None?
    ensures r.None? ==> forall q | from <= q < hi :: TokenAt(line, q).None?
    decreases hi
  {
    if hi == from then None
    else if TokenAt(line, hi - 1).Some? then Some(hi - 1)
    else FindLast(line, from, hi - 1)
  }

  /** p is where the first token of the line starts. */
  ghost predicate Leftmost(line: string, p: nat) {
    p < |line| && TokenAt(line, p).Some? && forall q | 0 <= q < p :: TokenAt(line, q).None?
  }

  /** p is where the last token starting at or after `from` starts. */
  ghost predicate LastFrom(line: string, from: nat, p: nat) {
    from <= p < |line| && TokenAt(line, p).Some? && forall q | p < q < |line| :: TokenAt(line, q).None?
  }

  /** The end of the token that starts at p. */
  function TokenEnd(line: string, p: nat): nat
    requires TokenAt(line, p).Some?
  {
    p + |TokenAt(line, p).value|
  }

  function ValueAt(line: string, p: nat): nat
    requires TokenAt(line, p).Some?
  {
    TokenValue(TokenAt(line, p).value);
    NumToInt(TokenAt(line, p).value).value
  }

  /** `nums`: the meaning of `(N).*(N)|(N)` with N the token pattern (see `NumsMeaning`);
      a line without tokens panics. */
  function Nums(line: string): (r: Result<(nat, nat), Error>)
    ensures r.Err? <==> forall q | 0 <= q < |line| :: TokenAt(line, q).None?
    ensures r.Ok? ==> 1 <= r.value.0 <= 9 && 1 <= r.value.1 <= 9
  {
    match FindFirst(line, 0)
    case None => Err(NoNumbers(line))
    case Some(p) =>
      var a := ValueAt(line, p);
      match FindLast(line, TokenEnd(line, p), |line|)
      case Some(p2) => Ok((a, ValueAt(line, p2)))
      case None => Ok((a, a))
  }

  /** The first number is the leftmost token; the second is the last token starting at or
      after the first one's end, or the first number again when there is none. */
  lemma NumsMeaning(line: string, p: nat)
    requires Leftmost(line, p)
    ensures Nums(line).Ok?
    ensures Nums(line).value.0 == ValueAt(line, p)
    ensures forall p2 | LastFrom(line, TokenEnd(line, p), p2) :: Nums(line).value.1 == ValueAt(line, p2)
    ensures (forall q | TokenEnd(line, p) <= q < |line| :: TokenAt(line, q).None?) ==>
      Nums(line).value.1 == ValueAt(line, p)
  {
    assert FindFirst(line, 0) == Some(p);
    var e := TokenEnd(line, p);
    forall p2: nat | LastFrom(line, e, p2) ensures FindLast(line, e, |line|) == Some(p2) {
      LastIsFound(line, e, p2);
    }
  }

  lemma LastIsFound(line: string, from: nat, p: nat)
    requires from <= |line| && LastFrom(line, from, p)
    ensures FindLast(line, from, |line|) == Some(p)
  {
  }

  /** `nums` panics exactly on a line where no token starts anywhere. */
  lemma NumsErrIffNoToken(line: string)
    ensures Nums(line).Err? <==> forall q: nat, t: string | IsToken(t) :: !StartsWith(line, q, t)
  {
    forall q: nat, t: string | IsToken(t) && StartsWith(line, q, t) ensures Nums(line).Ok? {
      TokenAtComplete(line, q, t);
    }
  }

  /** 10·a + b for a line that has tokens. */
  function LineValue(line: string): (v: nat)
    requires Nums(line).Ok?
    ensures 11 <= v <= 99
  {
    var (a, b) := Nums(line).value;
    10 * a + b
  }

  function Total(lines: seq<string>): nat
    requires forall k | 0 <= k < |lines| :: Nums(lines[k]).Ok?
  {
    if lines == [] then 0 else Total(lines[..|lines| - 1]) + LineValue(lines[|lines| - 1])
  }

  /** Every line contributes between 11 and 99. */
  lemma {:induction false} TotalBounds(lines: seq<string>)
    requires forall k | 0 <= k < |lines| :: Nums(lines[k]).Ok?
    ensures 11 * |lines| <= Total(lines) <= 99 * |lines|
  {
    if lines != [] {
      TotalBounds(lines[..|lines| - 1]);
    }
  }

  lemma FailingLine(lines: seq<string>, k: nat)
    requires k < |lines| && Nums(lines[k]).Err?
    ensures !forall j | 0 <= j < |lines| :: Nums(lines[j]).Ok?
  {
  }

  lemma TotalStep(lines: seq<string>, k: nat)
    requires k < |lines| && forall j | 0 <= j <= k :: Nums(lines[j]).Ok?
    ensures Total(lines[..k + 1]) == Total(lines[..k]) + LineValue(lines[k])
  {
    assert lines[..k + 1][..k] == lines[..k];
  }

  /** The summing loop of `main`: add `a * 10 + b` for every line; a line without
      tokens panics. `lines()` never yields a line holding '\n'. */
  method Calibrate(lines: seq<string>) returns (r: Result<nat, Error>)
    ensures r.Ok? <==> forall k | 0 <= k < |lines| :: Nums(lines[k]).Ok?
    ensures r.Ok? ==> r.value == Total(lines)
  {
    var result := 0;
    for k := 0 to |lines|
      invariant forall j | 0 <= j < k :: Nums(lines[j]).Ok?
      invariant result == Total(lines[..k])
    {
      var n := Nums(lines[k]);
      if n.Err? {
        FailingLine(lines, k);
        return Err(n.error);
      }
      var (a, b) := n.value;
      TotalStep(lines, k);
      result := result + a * 10 + b;
    }
    assert lines[..|lines|] == lines;
    r := Ok(result);
  }
}
