/**
 * The parts of Rust's `str`, `char`, `usize` and `format!` behaviour that the
 * repository map relies on, stated over Dafny strings (sequences of Unicode
 * scalar values).
 */
module RustStr {
  import opened Wrappers

  /** Largest `usize` on the 64-bit targets the tool is built for. */
  const USIZE_MAX: nat := 0xFFFF_FFFF_FFFF_FFFF

  // ---------------------------------------------------------------------------
  // Whitespace and trimming (`str::trim`, `trim_start`, `trim_end`)
  // ---------------------------------------------------------------------------

  /** Unicode `White_Space`, the character class Rust's trimming functions remove. */
  predicate IsWhitespace(c: char) {
    ('\t' <= c <= '\r') || c == ' ' || c == '\U{0085}' || c == '\U{00A0}' || c == '\U{1680}'
    || ('\U{2000}' <= c <= '\U{200A}') || c == '\U{2028}' || c == '\U{2029}'
    || c == '\U{202F}' || c == '\U{205F}' || c == '\U{3000}'
  }

  predicate AllWhitespace(s: string) {
    forall k :: 0 <= k < |s| ==> IsWhitespace(s[k])
  }

  /** Neither end of `s` is whitespace. */
  predicate IsTrimmed(s: string) {
    s == [] || (!IsWhitespace(s[0]) && !IsWhitespace(s[|s| - 1]))
  }

  /** `str::trim_start`: the longest suffix of `s` that does not start with whitespace. */
  function TrimStart(s: string): (r: string)
    ensures |r| <= |s| && r == s[|s| - |r|..]
    ensures AllWhitespace(s[..|s| - |r|])
    ensures r == [] || !IsWhitespace(r[0])
  {
    if s != [] && IsWhitespace(s[0]) then
      var r := TrimStart(s[1..]);
      TrimStartStep(s, r);
      r
    else s
  }

  lemma TrimStartStep(s: string, r: string)
    requires s != [] && IsWhitespace(s[0])
    requires |r| <= |s| - 1 && r == s[1..][|s| - 1 - |r|..] && AllWhitespace(s[1..][..|s| - 1 - |r|])
    ensures r == s[|s| - |r|..] && AllWhitespace(s[..|s| - |r|])
  {
    var n := |s| - |r|;
    assert s[1..][n - 1..] == s[n..];
    forall k | 0 <= k < n
      ensures IsWhitespace(s[..n][k])
    {
      if k > 0 {
        assert s[..n][k] == s[1..][..n - 1][k - 1];
      }
    }
  }

  /** `str::trim_end`: the longest prefix of `s` that does not end with whitespace. */
  function TrimEnd(s: string): (r: string)
    ensures |r| <= |s| && r == s[..|r|]
    ensures AllWhitespace(s[|r|..])
    ensures r == [] || !IsWhitespace(r[|r| - 1])
  {
    if s != [] && IsWhitespace(s[|s| - 1]) then
      var r := TrimEnd(s[..|s| - 1]);
      TrimEndStep(s, r);
      r
    else s
  }

  lemma TrimEndStep(s: string, r: string)
    requires s != [] && IsWhitespace(s[|s| - 1])
    requires |r| <= |s| - 1 && r == s[..|s| - 1][..|r|] && AllWhitespace(s[..|s| - 1][|r|..])
    ensures r == s[..|r|] && AllWhitespace(s[|r|..])
  {
    var n := |r|;
    assert s[..|s| - 1][..n] == s[..n];
    forall k | 0 <= k < |s| - n
      ensures IsWhitespace(s[n..][k])
    {
      if k < |s| - 1 - n {
        assert s[n..][k] == s[..|s| - 1][n..][k];
      }
    }
  }

  /** `str::trim`: `s` without leading and trailing whitespace. */
  function Trim(s: string): (r: string)
    ensures IsTrimmed(r)
  {
    TrimEnd(TrimStart(s))
  }

  /**
   * What `trim` keeps is a contiguous part of `s`, and everything it drops on
   * either side is whitespace.
   */
  lemma TrimKeepsMiddle(s: string, i: nat)
    requires i == |s| - |TrimStart(s)|
    ensures i + |Trim(s)| <= |s| && Trim(s) == s[i..i + |Trim(s)|]
    ensures AllWhitespace(s[..i]) && AllWhitespace(s[i + |Trim(s)|..])
  {
    KeptMiddle(s, i, TrimStart(s), Trim(s));
  }

  /** A prefix `r` of the suffix `t` of `s` from `i`, followed there by whitespace only. */
  lemma KeptMiddle(s: string, i: nat, t: string, r: string)
    requires i <= |s| && t == s[i..] && |r| <= |t| && r == t[..|r|] && AllWhitespace(t[|r|..])
    ensures r == s[i..i + |r|] && AllWhitespace(s[i + |r|..])
  {
    SlicesOfSuffix(s, i, |r|);
  }

  /** Slicing a suffix of `s` is slicing `s` itself, shifted. */
  lemma SlicesOfSuffix(s: string, i: nat, n: nat)
    requires i + n <= |s|
    ensures s[i..][..n] == s[i..i + n] && s[i..][n..] == s[i + n..]
  {
  }

  /** Trimming a string without whitespace at either end changes nothing. */
  lemma TrimOfTrimmed(s: string)
    requires IsTrimmed(s)
    ensures Trim(s) == s
  {
  }

  /** A whitespace-only string trims to nothing, and only such a string does. */
  lemma {:induction false} TrimEndEmptyIff(s: string)
    ensures TrimEnd(s) == [] <==> AllWhitespace(s)
  {
    if s != [] && IsWhitespace(s[|s| - 1]) {
      TrimEndEmptyIff(s[..|s| - 1]);
      assert s[..|s| - 1] + [s[|s| - 1]] == s;
    }
  }

  /** Trimming the end of a string that does not end in whitespace changes nothing. */
  lemma TrimEndOfTrimmed(s: string)
    requires s == [] || !IsWhitespace(s[|s| - 1])
    ensures TrimEnd(s) == s
  {
  }

  /** Appending whitespace does not change what `trim_end` keeps. */
  lemma {:induction false} TrimEndIgnoresTrailingWhitespace(s: string, w: string)
    requires AllWhitespace(w)
    ensures TrimEnd(s + w) == TrimEnd(s)
  {
    if w != [] {
      var sw := s + w;
      assert sw[|sw| - 1] == w[|w| - 1];
      assert sw[..|sw| - 1] == s + w[..|w| - 1];
      assert TrimEnd(sw) == TrimEnd(sw[..|sw| - 1]);
      TrimEndIgnoresTrailingWhitespace(s, w[..|w| - 1]);
    } else {
      assert s + w == s;
    }
  }

  // ---------------------------------------------------------------------------
  // Leading runs of one character (`take_while(..).count()`, `trim_start_matches`)
  // ---------------------------------------------------------------------------

  /** `s.chars().take_while(|&x| x == c).count()`. */
  function CountLeading(s: string, c: char): (n: nat)
    ensures n <= |s|
    ensures forall k :: 0 <= k < n ==> s[k] == c
    ensures n == |s| || s[n] != c
  {
    if s != [] && s[0] == c then 1 + CountLeading(s[1..], c) else 0
  }

  /** `s.trim_start_matches(c)`: `s` with every leading `c` removed. */
  function TrimStartMatches(s: string, c: char): (r: string)
    ensures |r| <= |s| && r == s[|s| - |r|..]
    ensures forall k :: 0 <= k < |s| - |r| ==> s[k] == c
    ensures r == [] || r[0] != c
  {
    if s != [] && s[0] == c then TrimStartMatches(s[1..], c) else s
  }

  /** What `trim_start_matches` removes is exactly the run `take_while` counts. */
  lemma {:induction false} TrimStartMatchesDropsLeadingRun(s: string, c: char)
    ensures TrimStartMatches(s, c) == s[CountLeading(s, c)..]
  {
    if s != [] && s[0] == c {
      TrimStartMatchesDropsLeadingRun(s[1..], c);
    }
  }

  // ---------------------------------------------------------------------------
  // Decimal rendering (`{}` on `usize`) and parsing (`str::parse::<usize>`)
  // ---------------------------------------------------------------------------

  predicate IsDigit(c: char) {
    '0' <= c <= '9'
  }

  predicate AllDigits(s: string) {
    forall k :: 0 <= k < |s| ==> IsDigit(s[k])
  }

  function DigitChar(d: nat): (c: char)
    requires d < 10
    ensures IsDigit(c) && (c as int) - ('0' as int) == d
  {
    (('0' as int) + d) as char
  }

  function DigitValue(c: char): (d: nat)
    requires IsDigit(c)
    ensures d < 10
  {
    (c as int) - ('0' as int)
  }

  /** The value of a string of decimal digits. */
  function DigitsValue(s: string): nat
    requires AllDigits(s)
  {
    if s == [] then 0 else DigitsValue(s[..|s| - 1]) * 10 + DigitValue(s[|s| - 1])
  }

  /** `format!("{}", n)`: the shortest decimal numeral of `n`. */
  function NatToString(n: nat): (r: string)
    ensures r != [] && AllDigits(r)
    ensures r[0] == '0' ==> r == "0"
  {
    if n < 10 then [DigitChar(n)] else NatToString(n / 10) + [DigitChar(n % 10)]
  }

  /** Reading back the numeral gives the number. */
  lemma {:induction false} NatToStringValue(n: nat)
    ensures DigitsValue(NatToString(n)) == n
  {
    if n >= 10 {
      var s := NatToString(n);
      assert s[..|s| - 1] == NatToString(n / 10);
      NatToStringValue(n / 10);
    }
  }

  /**
   * `s.parse::<usize>().ok()`: an optional `+` sign, then at least one decimal
   * digit and nothing else, with a value that fits in a `usize`.
   */
  function ParseUsize(s: string): (r: Option<nat>)
    ensures r.Some? ==> r.value <= USIZE_MAX
    ensures r.Some? ==> s != [] && s != "+"
    ensures r.Some? ==> || (AllDigits(s) && r.value == DigitsValue(s))
                        || (s[0] == '+' && AllDigits(s[1..]) && r.value == DigitsValue(s[1..]))
  {
    var digits := if |s| > 0 && s[0] == '+' then s[1..] else s;
    if digits != [] && AllDigits(digits) && DigitsValue(digits) <= USIZE_MAX then
      Some(DigitsValue(digits))
    else
      None
  }

  /** A number below 1000 renders in at most three digits. */
  lemma NatToStringBelow1000(n: nat)
    requires n < 1000
    ensures |NatToString(n)| <= 3
  {
    if n >= 10 {
      assert |NatToString(n / 10)| <= 2 by {
        if n / 10 >= 10 {
          assert NatToString(n / 10) == NatToString(n / 100) + [DigitChar(n / 10 % 10)];
        }
      }
    }
  }

  /** Every `usize` survives rendering and parsing. */
  lemma ParseRendered(n: nat)
    requires n <= USIZE_MAX
    ensures ParseUsize(NatToString(n)) == Some(n)
  {
    NatToStringValue(n);
  }

  // ---------------------------------------------------------------------------
  // Padding and repetition (`{: <w}`, `str::repeat`, `slice::join`)
  // ---------------------------------------------------------------------------

  function Spaces(n: nat): (r: string)
    ensures |r| == n && forall k :: 0 <= k < n ==> r[k] == ' '
  {
    seq(n, _ => ' ')
  }

  /** `format!("{: <w}", s)`: left-aligned in a field of `w` characters, never truncated. */
  function PadRight(s: string, w: nat): (r: string)
    ensures |r| == if |s| < w then w else |s|
    ensures r[..|s|] == s
    ensures forall k :: |s| <= k < |r| ==> r[k] == ' '
  {
    if |s| < w then s + Spaces(w - |s|) else s
  }

  /** `s.repeat(n)`: `n` copies of `s`, so it starts with `s` and repeats with period `|s|`. */
  function Repeat(s: string, n: nat): (r: string)
    ensures |r| == n * |s|
    ensures n > 0 ==> r[..|s|] == s
    ensures forall k :: 0 <= k < |r| - |s| ==> r[k + |s|] == r[k]
  {
    if n == 0 then [] else s + Repeat(s, n - 1)
  }

  /** Repeating two spaces `n` times gives `2 * n` spaces. */
  lemma {:induction false} RepeatTwoSpaces(n: nat)
    ensures Repeat("  ", n) == Spaces(2 * n)
  {
    if n > 0 {
      RepeatTwoSpaces(n - 1);
    }
  }

  /** `xs.join(sep)`. */
  function Join(xs: seq<string>, sep: string): (r: string)
  {
    if xs == [] then [] else if |xs| == 1 then xs[0] else xs[0] + sep + Join(xs[1..], sep)
  }

  /** Joining one more element adds the separator and the element at the end. */
  lemma {:induction false} JoinSnoc(xs: seq<string>, x: string, sep: string)
    requires xs != []
    ensures Join(xs + [x], sep) == Join(xs, sep) + sep + x
  {
    if |xs| > 1 {
      assert (xs + [x])[1..] == xs[1..] + [x];
      JoinSnoc(xs[1..], x, sep);
    } else {
      assert (xs + [x])[1..] == [x];
    }
  }

  // ---------------------------------------------------------------------------
  // Searching (`str::find`)
  // ---------------------------------------------------------------------------

  /** `q` occurs in `s` starting at index `i`. */
  predicate OccursAt(s: string, q: string, i: nat) {
    i + |q| <= |s| && s[i..i + |q|] == q
  }

  /** `q` occurs nowhere in `s`. */
  predicate Absent(s: string, q: string) {
    forall i: nat :: i <= |s| ==> !OccursAt(s, q, i)
  }

  function FindFrom(s: string, q: string, from: nat): (r: Option<nat>)
    requires from <= |s|
    ensures r.Some? ==> from <= r.value && OccursAt(s, q, r.value)
    ensures r.Some? ==> forall k: nat :: from <= k < r.value ==> !OccursAt(s, q, k)
    ensures r.None? ==> forall k: nat :: from <= k ==> !OccursAt(s, q, k)
    decreases |s| - from
  {
    if OccursAt(s, q, from) then Some(from)
    else if from == |s| then None
    else FindFrom(s, q, from + 1)
  }

  /** `s.find(q)`: the index of the first occurrence of `q` in `s`, if any. */
  function Find(s: string, q: string): (r: Option<nat>)
    ensures r.Some? ==> OccursAt(s, q, r.value)
    ensures r.Some? ==> forall k: nat :: k < r.value ==> !OccursAt(s, q, k)
    ensures r.None? <==> Absent(s, q)
  {
    FindFrom(s, q, 0)
  }

  /** `s.contains(q)`. */
  predicate Contains(s: string, q: string) {
    exists i: nat :: i <= |s| && OccursAt(s, q, i)
  }

  /** `x` occurs in `p + x + q` right after `p`. */
  lemma OccursInMiddle(p: string, x: string, q: string)
    ensures OccursAt(p + x + q, x, |p|)
  {
    assert (p + x + q)[|p|..|p| + |x|] == x;
  }

  /** `x` occurs in `p + x` right after `p`. */
  lemma OccursAtEnd(p: string, x: string)
    ensures OccursAt(p + x, x, |p|)
  {
    assert (p + x)[|p|..|p| + |x|] == x;
  }

  /** An occurrence in `a` is still one after appending. */
  lemma OccursExtend(a: string, b: string, q: string, i: nat)
    requires OccursAt(a, q, i)
    ensures OccursAt(a + b, q, i)
  {
    assert (a + b)[i..i + |q|] == a[i..i + |q|];
  }

  lemma Associate3(a: string, b: string, c: string)
    ensures a + b + c == a + (b + c)
  {
  }

  lemma Associate4(a: string, b: string, c: string, d: string)
    ensures a + b + c + d == a + (b + c + d)
  {
  }

  /** An occurrence inside an occurrence is an occurrence. */
  lemma OccursWithin(s: string, t: string, q: string, i: nat, j: nat)
    requires OccursAt(s, t, i) && OccursAt(t, q, j)
    ensures OccursAt(s, q, i + j)
  {
    forall k | 0 <= k < |q| ensures s[i + j + k] == q[k] {
      assert s[i + j + k] == s[i..i + |t|][j + k] == t[j + k];
      assert t[j + k] == t[j..j + |q|][k];
    }
    assert s[i + j..i + j + |q|] == q;
  }

  /** An occurrence with none before it is what `find` returns. */
  lemma FindFirst(s: string, q: string, i: nat)
    requires OccursAt(s, q, i)
    requires forall k: nat :: k < i ==> !OccursAt(s, q, k)
    ensures Find(s, q) == Some(i)
  {
    assert !Absent(s, q);
  }

  /** Occurrences inside a suffix are occurrences in the whole string, shifted. */
  lemma OccursShift(u: string, v: string, q: string, j: nat)
    ensures OccursAt(u + v, q, |u| + j) <==> OccursAt(v, q, j)
  {
    if j + |q| <= |v| {
      assert (u + v)[|u| + j..|u| + j + |q|] == v[j..j + |q|];
    }
  }

  /**
   * When the first character of `q` does not recur inside `q`, and what
   * follows `x` starts with that character, no occurrence of `q` can start in
   * `x` unless one lies wholly in `x`.
   */
  lemma NoOccurrenceBefore(x: string, y: string, q: string)
    requires q != [] && forall t :: 0 < t < |q| ==> q[t] != q[0]
    requires Absent(x, q)
    requires y != [] && y[0] == q[0]
    ensures forall i: nat :: i < |x| ==> !OccursAt(x + y, q, i)
  {
    forall i: nat | i < |x| ensures !OccursAt(x + y, q, i) {
      if i + |q| <= |x| {
        assert x[i..i + |q|] == (x + y)[i..i + |q|];
        assert !OccursAt(x, q, i);
      } else if i + |q| <= |x + y| {
        var t := |x| - i;
        assert (x + y)[i..i + |q|][t] == y[0] == q[0] != q[t];
      }
    }
  }

  // ---------------------------------------------------------------------------
  // Lines (`str::lines().count()`) and UTF-8 length (`str::len`)
  // ---------------------------------------------------------------------------

  predicate NoNewline(s: string) {
    forall k :: 0 <= k < |s| ==> s[k] != '\n'
  }

  lemma NoNewlineConcat(a: string, b: string)
    requires NoNewline(a) && NoNewline(b)
    ensures NoNewline(a + b)
  {
    forall k | 0 <= k < |a + b| ensures (a + b)[k] != '\n' {
      if k < |a| {
        assert (a + b)[k] == a[k];
      } else {
        assert (a + b)[k] == b[k - |a|];
      }
    }
  }

  function CountChar(s: string, c: char): (n: nat)
    ensures n <= |s|
  {
    if s == [] then 0 else CountChar(s[..|s| - 1], c) + (if s[|s| - 1] == c then 1 else 0)
  }

  lemma {:induction false} CountCharConcat(a: string, b: string, c: char)
    ensures CountChar(a + b, c) == CountChar(a, c) + CountChar(b, c)
  {
    if b != [] {
      assert (a + b)[..|a + b| - 1] == a + b[..|b| - 1];
      CountCharConcat(a, b[..|b| - 1], c);
    } else {
      assert a + b == a;
    }
  }

  function IndexOfChar(s: string, c: char): (r: Option<nat>)
    ensures r.Some? ==> r.value < |s| && s[r.value] == c && forall k :: 0 <= k < r.value ==> s[k] != c
    ensures r.None? ==> forall k :: 0 <= k < |s| ==> s[k] != c
  {
    if s == [] then None
    else if s[0] == c then Some(0)
    else match IndexOfChar(s[1..], c)
      case None => None
      case Some(i) => Some(i + 1)
  }

  function LastIndexOfChar(s: string, c: char): (r: Option<nat>)
    ensures r.Some? ==> r.value < |s| && s[r.value] == c && forall k :: r.value < k < |s| ==> s[k] != c
    ensures r.None? ==> forall k :: 0 <= k < |s| ==> s[k] != c
  {
    if s == [] then None
    else if s[|s| - 1] == c then Some(|s| - 1)
    else LastIndexOfChar(s[..|s| - 1], c)
  }

  /** A `\n`-terminated line as `lines()` yields it: without one `\r` before the `\n`. */
  function StripLineEnd(s: string): string {
    if s != [] && s[|s| - 1] == '\r' then s[..|s| - 1] else s
  }

  /**
   * `s.lines()`: the pieces of `s` ended by `\n`, the last piece needing no
   * terminator (and keeping a trailing `\r`); a final `\n` does not start an
   * empty line.
   */
  function Lines(s: string): seq<string>
    decreases |s|
  {
    match IndexOfChar(s, '\n')
    case None => if s == [] then [] else [s]
    case Some(i) => [StripLineEnd(s[..i])] + Lines(s[i + 1..])
  }

  /** `s.lines().count()`. */
  function LineCount(s: string): nat {
    |Lines(s)|
  }

  /** One line per `\n`, plus one for a final unterminated line. */
  lemma {:induction false} LineCountByNewlines(s: string)
    ensures LineCount(s) == CountChar(s, '\n') + (if s != [] && s[|s| - 1] != '\n' then 1 else 0)
    decreases |s|
  {
    match IndexOfChar(s, '\n')
    case None =>
      assert CountChar(s, '\n') == 0 by { NoNewlineCount(s, '\n'); }
    case Some(i) =>
      LineCountByNewlines(s[i + 1..]);
      CountPastFirstNewline(s, i);
  }

  /** The newlines of `s` are the first one plus those after it. */
  lemma CountPastFirstNewline(s: string, i: nat)
    requires i < |s| && s[i] == '\n' && forall k :: 0 <= k < i ==> s[k] != '\n'
    ensures CountChar(s, '\n') == 1 + CountChar(s[i + 1..], '\n')
  {
    var rest := s[i + 1..];
    assert s == s[..i] + ([s[i]] + rest);
    NoNewlineCount(s[..i], '\n');
    CountCharConcat(s[..i], [s[i]] + rest, '\n');
    CountCharConcat([s[i]], rest, '\n');
    assert CountChar([s[i]], '\n') == 1;
  }

  lemma {:induction false} NoNewlineCount(s: string, c: char)
    requires forall k :: 0 <= k < |s| ==> s[k] != c
    ensures CountChar(s, c) == 0
  {
    if s != [] {
      NoNewlineCount(s[..|s| - 1], c);
    }
  }

  /** Bytes in the UTF-8 encoding of one scalar value. */
  function Utf8Width(c: char): (n: nat)
    ensures 1 <= n <= 4
  {
    if c as int < 0x80 then 1 else if c as int < 0x800 then 2 else if c as int < 0x1_0000 then 3 else 4
  }

  /** `str::len`: the length of `s` in UTF-8 bytes. */
  function Utf8Length(s: string): (n: nat)
    ensures |s| <= n <= 4 * |s|
  {
    if s == [] then 0 else Utf8Length(s[..|s| - 1]) + Utf8Width(s[|s| - 1])
  }

  predicate IsAscii(s: string) {
    forall k :: 0 <= k < |s| ==> s[k] as int < 0x80
  }

  /** An ASCII string has one byte per character. */
  lemma {:induction false} AsciiUtf8Length(s: string)
    requires IsAscii(s)
    ensures Utf8Length(s) == |s|
  {
    if s != [] {
      AsciiUtf8Length(s[..|s| - 1]);
    }
  }
}
