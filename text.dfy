/** The pieces of Rust's text handling the solvers rely on: ASCII decimal
    digits (`char::is_digit(10)`, regex `\d`), `str::parse` for unsigned
    integers, and `str::split_whitespace`. */
module Text {
  import opened Wrappers

  predicate IsDigit(c: char) {
    '0' <= c <= '9'
  }

  predicate AllDigits(s: string) {
    forall k | 0 <= k < |s| :: IsDigit(s[k])
  }

  function DigitValue(c: char): (d: nat)
    requires IsDigit(c)
    ensures d < 10
  {
    c as int - '0' as int
  }

  function Pow10(n: nat): (p: nat)
    ensures p >= 1
  {
    if n == 0 then 1 else 10 * Pow10(n - 1)
  }

  /** The value of a string of decimal digits, most significant digit first. */
  function DecimalValue(s: string): (v: nat)
    requires AllDigits(s)
    ensures v < Pow10(|s|)
  {
    if s == [] then 0 else 10 * DecimalValue(s[..|s| - 1]) + DigitValue(s[|s| - 1])
  }

  /** Rust's `str::parse::<uN>()`: one optional leading '+', then at least one
      ASCII digit and nothing else, with a value of at most `max`
      (u32::MAX or u64::MAX); anything else is a parse error. */
  function ParseUnsigned(s: string, max: nat): (r: Option<nat>)
    ensures r.Some? ==> r.value <= max
    ensures r.Some? ==> || (s != [] && AllDigits(s) && r.value == DecimalValue(s))
                        || (|s| > 1 && s[0] == '+' && AllDigits(s[1..]) && r.value == DecimalValue(s[1..]))
    ensures AllDigits(s) && s != [] && DecimalValue(s) <= max ==> r == Some(DecimalValue(s))
    ensures |s| > 1 && s[0] == '+' && AllDigits(s[1..]) && DecimalValue(s[1..]) <= max ==>
      r == Some(DecimalValue(s[1..]))
    ensures s == [] || s == "+" || (s[0] != '+' && !IsDigit(s[0])) ==> r == None
  {
    var digits := if |s| > 1 && s[0] == '+' then s[1..] else s;
    if digits == [] || !AllDigits(digits) then None
    else if DecimalValue(digits) > max then None
    else Some(DecimalValue(digits))
  }

  /** The number of bytes UTF-8 takes for a character. */
  function Utf8Len(c: char): (n: nat)
    ensures 1 <= n <= 4
  {
    if c as int < 0x80 then 1 else if c as int < 0x800 then 2 else if c as int < 0x1_0000 then 3 else 4
  }

  /** The byte length of `s` in UTF-8: a character index of `s` becomes the byte offset
      `Utf8Width(s[..i])`, which is what Rust's string positions (`Match::start`) count. */
  function Utf8Width(s: string): nat {
    if s == [] then 0 else Utf8Width(s[..|s| - 1]) + Utf8Len(s[|s| - 1])
  }

  predicate IsAscii(s: string) {
    forall k | 0 <= k < |s| :: s[k] as int < 0x80
  }

  /** On ASCII text, byte offsets and character indices coincide. */
  lemma {:induction false} Utf8WidthAscii(s: string)
    requires IsAscii(s)
    ensures Utf8Width(s) == |s|
  {
    if s != [] {
      Utf8WidthAscii(s[..|s| - 1]);
    }
  }

  /** Offsets strictly grow along the string, so distinct characters have distinct offsets. */
  lemma {:induction false} Utf8WidthGrows(s: string, i: nat, j: nat)
    requires i < j <= |s|
    ensures Utf8Width(s[..i]) < Utf8Width(s[..j])
    decreases j
  {
    assert s[..j][..j - 1] == s[..j - 1];
    if i < j - 1 {
      Utf8WidthGrows(s, i, j - 1);
    }
  }

  const U32_MAX: nat := 0xFFFF_FFFF
  const U64_MAX: nat := 0xFFFF_FFFF_FFFF_FFFF

  /** Rust's `char::is_whitespace`: the Unicode White_Space property. */
  predicate IsWhitespace(c: char) {
    || '\U{9}' <= c <= '\U{D}'
    || c == ' '
    || c == '\U{85}'
    || c == '\U{A0}'
    || c == '\U{1680}'
    || '\U{2000}' <= c <= '\U{200A}'
    || c == '\U{2028}'
    || c == '\U{2029}'
    || c == '\U{202F}'
    || c == '\U{205F}'
    || c == '\U{3000}'
  }

  predicate NoWhitespace(s: string) {
    forall k | 0 <= k < |s| :: !IsWhitespace(s[k])
  }

  /** The characters of `s` that are not whitespace, in order. */
  function NonWhitespace(s: string): string {
    if s == [] then []
    else (if IsWhitespace(s[0]) then [] else [s[0]]) + NonWhitespace(s[1..])
  }

  function Concat(ws: seq<string>): string {
    if ws == [] then [] else ws[0] + Concat(ws[1..])
  }

  /** Length of the run of non-whitespace characters that starts `s`. */
  function WordLength(s: string): (n: nat)
    ensures n <= |s|
    ensures NoWhitespace(s[..n])
    ensures n == |s| || IsWhitespace(s[n])
  {
    if s == [] || IsWhitespace(s[0]) then 0
    else
      var n := 1 + WordLength(s[1..]);
      assert s[..n] == [s[0]] + s[1..][..n - 1];
      n
  }

  lemma {:induction false} NonWhitespaceAppend(a: string, b: string)
    ensures NonWhitespace(a + b) == NonWhitespace(a) + NonWhitespace(b)
  {
    if a != [] {
      assert (a + b)[1..] == a[1..] + b;
      NonWhitespaceAppend(a[1..], b);
    } else {
      assert a + b == b;
    }
  }

  lemma {:induction false} NonWhitespaceOfWord(w: string)
    requires NoWhitespace(w)
    ensures NonWhitespace(w) == w
  {
    if w != [] {
      NonWhitespaceOfWord(w[1..]);
    }
  }

  predicate AllWhitespace(s: string) {
    forall k | 0 <= k < |s| :: IsWhitespace(s[k])
  }

  /** gs[0] + ws[0] + gs[1] + ... + ws[n-1] + gs[n]: words laid out between gaps. */
  function Weave(gs: seq<string>, ws: seq<string>): string
    requires |gs| == |ws| + 1
    decreases ws
  {
    if ws == [] then gs[0] else gs[0] + ws[0] + Weave(gs[1..], ws[1..])
  }

  /** `s` is the words `ws` separated by the whitespace gaps `gs`, where only the gaps
      before the first and after the last word may be empty. */
  ghost predicate Separates(s: string, gs: seq<string>, ws: seq<string>) {
    && |gs| == |ws| + 1
    && s == Weave(gs, ws)
    && (forall k | 0 <= k < |gs| :: AllWhitespace(gs[k]))
    && (forall k | 0 < k < |ws| :: gs[k] != [])
  }

  /** A leading whitespace character joins the first gap. */
  lemma SeparatesWhitespace(s: string, ws: seq<string>)
    requires s != [] && IsWhitespace(s[0])
    requires exists gs :: Separates(s[1..], gs, ws)
    ensures exists gs :: Separates(s, gs, ws)
  {
    var gs :| Separates(s[1..], gs, ws);
    var gs' := [[s[0]] + gs[0]] + gs[1..];
    assert gs'[1..] == gs[1..];
    assert Weave(gs', ws) == [s[0]] + Weave(gs, ws);
    assert s == [s[0]] + s[1..];
    assert Separates(s, gs', ws);
  }

  /** A leading word of length n, followed by whitespace or the end, is the first word. */
  lemma SeparatesWord(s: string, n: nat, ws: seq<string>)
    requires 0 < n <= |s| && NoWhitespace(s[..n]) && (n == |s| || IsWhitespace(s[n]))
    requires ws != [] ==> ws[0] != [] && !IsWhitespace(ws[0][0])
    requires exists gs :: Separates(s[n..], gs, ws)
    ensures exists gs :: Separates(s, gs, [s[..n]] + ws)
  {
    var gs :| Separates(s[n..], gs, ws);
    var ws' := [s[..n]] + ws;
    var gs' := [[]] + gs;
    assert gs'[1..] == gs && ws'[1..] == ws;
    assert Weave(gs', ws') == s[..n] + s[n..] == s;
    if ws != [] {
      assert s[n..] == (gs[0] + ws[0]) + Weave(gs[1..], ws[1..]);
      assert s[n] == (gs[0] + ws[0])[0];
    }
    assert Separates(s, gs', ws');
  }

  /** Rust's `str::split_whitespace`: the maximal non-empty runs of
      non-whitespace characters, in order. */
  function SplitWhitespace(s: string): (ws: seq<string>)
    ensures forall k | 0 <= k < |ws| :: ws[k] != [] && NoWhitespace(ws[k])
    ensures Concat(ws) == NonWhitespace(s)
    ensures exists gs :: Separates(s, gs, ws)
    decreases |s|
  {
    if s == [] then
      assert Separates(s, [[]], []);
      []
    else if IsWhitespace(s[0]) then
      SeparatesWhitespace(s, SplitWhitespace(s[1..]));
      SplitWhitespace(s[1..])
    else
      var n := WordLength(s);
      var rest := SplitWhitespace(s[n..]);
      assert s == s[..n] + s[n..];
      NonWhitespaceAppend(s[..n], s[n..]);
      NonWhitespaceOfWord(s[..n]);
      SeparatesWord(s, n, rest);
      [s[..n]] + rest
  }
}
