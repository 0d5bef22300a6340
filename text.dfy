/**
 * The string operations the command router relies on: Python's whitespace
 * test, `strip()`, `split(maxsplit=2)`, `lower()` as far as the router's
 * comparisons can observe it, decimal rendering of counters and the
 * `%H:%M:%S` clock of the history replay.
 */
module Text {

  /** `str.isspace()` for one character: the characters Python's
      `strip()` and `split()` (without arguments) treat as whitespace. */
  predicate IsSpace(c: char) {
    || ('\t' <= c <= '\r')
    || ('\U{1C}' <= c <= '\U{1F}')
    || c == ' '
    || c == '\U{85}'
    || c == '\U{A0}'
    || c == '\U{1680}'
    || ('\U{2000}' <= c <= '\U{200A}')
    || c == '\U{2028}'
    || c == '\U{2029}'
    || c == '\U{202F}'
    || c == '\U{205F}'
    || c == '\U{3000}'
  }

  predicate AllSpace(s: string) {
    forall i :: 0 <= i < |s| ==> IsSpace(s[i])
  }

  predicate NoSpace(s: string) {
    forall i :: 0 <= i < |s| ==> !IsSpace(s[i])
  }

  /** The string without its leading whitespace. */
  function SkipSpace(s: string): (r: string)
    ensures |r| <= |s| && r == s[|s| - |r|..]
    ensures AllSpace(s[..|s| - |r|])
    ensures r == [] || !IsSpace(r[0])
  {
    if s != [] && IsSpace(s[0]) then SkipSpace(s[1..]) else s
  }

  /** A string is blank exactly when skipping its leading blanks leaves nothing. */
  lemma BlankIffSkipsAll(s: string)
    ensures SkipSpace(s) == [] <==> AllSpace(s)
  {
    var t := SkipSpace(s);
    if t == [] {
      assert s == s[..|s|];
    } else {
      assert s[|s| - |t|] == t[0];
    }
  }

  /** The string without its trailing whitespace. */
  function TrimEnd(s: string): (r: string)
    ensures |r| <= |s| && r == s[..|r|]
    ensures AllSpace(s[|r|..])
    ensures r == [] || !IsSpace(r[|r| - 1])
  {
    if s != [] && IsSpace(s[|s| - 1]) then
      var init := s[..|s| - 1];
      var r := TrimEnd(init);
      assert init[..|r|] == s[..|r|];
      assert s[|r|..] == init[|r|..] + [s[|s| - 1]];
      r
    else s
  }

  /** Python's `s.strip()`. */
  function Strip(s: string): (r: string)
    ensures |r| <= |s|
    ensures r == [] || (!IsSpace(r[0]) && !IsSpace(r[|r| - 1]))
  {
    var t := SkipSpace(s);
    var r := TrimEnd(t);
    assert r == [] || r[0] == t[0];
    r
  }

  /** What stripping keeps: the characters of `s` from `i` to `j`, with
      only blanks before `i` and from `j` on. */
  lemma {:induction false} StripSlice(s: string) returns (i: nat, j: nat)
    ensures i <= j <= |s| && Strip(s) == s[i..j]
    ensures AllSpace(s[..i]) && AllSpace(s[j..])
  {
    var t := SkipSpace(s);
    i := |s| - |t|;
    assert t == s[i..] && AllSpace(s[..i]);
    var r := TrimEnd(t);
    assert r == t[..|r|] && AllSpace(t[|r|..]);
    assert Strip(s) == r;
    j := i + |r|;
    SuffixSlices(s, t, i, |r|);
    assert s[i..j] == r && s[j..] == t[|r|..];
  }

  /** Slicing the suffix `t` of `s` from `i` at `n` slices `s` at `i + n`. */
  lemma SuffixSlices<T>(s: seq<T>, t: seq<T>, i: nat, n: nat)
    requires i <= |s| && t == s[i..] && n <= |t|
    ensures t[..n] == s[i..i + n] && t[n..] == s[i + n..]
  {
  }

  /** Length of the longest prefix without whitespace. */
  function WordLength(s: string): (n: nat)
    ensures n <= |s|
    ensures NoSpace(s[..n])
    ensures n < |s| ==> IsSpace(s[n])
  {
    if s == [] || IsSpace(s[0]) then 0 else 1 + WordLength(s[1..])
  }

  /** `a` is a trailing part of `s`. */
  predicate IsSuffix(a: string, s: string) {
    |a| <= |s| && a == s[|s| - |a|..]
  }

  lemma SuffixTransitive(a: string, b: string, c: string)
    requires IsSuffix(a, b) && IsSuffix(b, c)
    ensures IsSuffix(a, c)
  {
    assert c[|c| - |b|..][|b| - |a|..] == c[|c| - |a|..];
  }

  /** The first word of a string that starts with a non-blank, and the
      rest after it, stripped of its leading blanks. */
  function FirstWord(s: string): (r: (string, string))
    requires s != [] && !IsSpace(s[0])
    ensures r.0 != [] && NoSpace(r.0)
    ensures IsSuffix(r.1, s)
    ensures r.1 == [] || !IsSpace(r.1[0])
  {
    var n := WordLength(s);
    var rest := SkipSpace(s[n..]);
    SuffixTransitive(rest, s[n..], s);
    (s[..n], rest)
  }

  /** The fields of a string that starts with a non-blank. */
  function FieldsFrom(s: string): (parts: seq<string>)
    requires s != [] && !IsSpace(s[0])
    ensures 1 <= |parts| <= 3
    ensures parts[0] != [] && NoSpace(parts[0])
    ensures |parts| >= 2 ==> parts[1] != [] && NoSpace(parts[1])
    ensures |parts| == 3 ==> parts[2] != [] && !IsSpace(parts[2][0]) && IsSuffix(parts[2], s)
  {
    var (w1, s2) := FirstWord(s);
    if s2 == [] then
      [w1]
    else
      var (w2, s3) := FirstWord(s2);
      if s3 == [] then
        [w1, w2]
      else
        SuffixTransitive(s3, s2, s);
        [w1, w2, s3]
  }

  /**
   * Python's `s.split(maxsplit=2)`: up to two whitespace-free words and,
   * when something follows them, the rest of the string from its first
   * non-blank character on, with its inner whitespace kept.
   */
  function SplitFields(s: string): (parts: seq<string>)
    ensures |parts| <= 3
    ensures parts == [] <==> AllSpace(s)
    ensures |parts| >= 1 ==> parts[0] != [] && NoSpace(parts[0])
    ensures |parts| >= 2 ==> parts[1] != [] && NoSpace(parts[1])
    ensures |parts| == 3 ==> parts[2] != [] && !IsSpace(parts[2][0]) && IsSuffix(parts[2], s)
  {
    var s1 := SkipSpace(s);
    BlankIffSkipsAll(s);
    if s1 == [] then
      []
    else
      var parts := FieldsFrom(s1);
      if |parts| == 3 then SuffixTransitive(parts[2], s1, s); parts else parts
  }

  /** Blanks in front of a string that starts with a non-blank are all skipped. */
  lemma {:induction false} SkipBlankPrefix(g: string, t: string)
    requires AllSpace(g)
    requires t == [] || !IsSpace(t[0])
    ensures SkipSpace(g + t) == t
  {
    if g != [] {
      assert (g + t)[1..] == g[1..] + t;
      SkipBlankPrefix(g[1..], t);
    }
  }

  /** A word followed by nothing or by a blank is measured exactly. */
  lemma {:induction false} WordThenBlank(w: string, t: string)
    requires NoSpace(w)
    requires t == [] || IsSpace(t[0])
    ensures WordLength(w + t) == |w|
  {
    if w != [] {
      assert (w + t)[1..] == w[1..] + t;
      WordThenBlank(w[1..], t);
    }
  }

  /** The first word of a word, blanks and a remainder is that word, and
      what is left is the remainder. */
  lemma FirstWordOf(w: string, g: string, t: string)
    requires w != [] && NoSpace(w)
    requires g != [] && AllSpace(g)
    requires t == [] || !IsSpace(t[0])
    ensures FirstWord(w + g + t) == (w, t)
  {
    var s := w + g + t;
    assert s == w + (g + t);
    WordThenBlank(w, g + t);
    assert s[..|w|] == w;
    assert s[|w|..] == g + t;
    SkipBlankPrefix(g, t);
  }

  /**
   * Splitting undoes joining: two words and a remainder separated by blanks
   * come back as exactly those three fields, the remainder with its own
   * inner blanks intact.
   */
  lemma SplitOfJoined(g0: string, w1: string, g1: string, w2: string, g2: string, rest: string)
    requires AllSpace(g0) && AllSpace(g1) && AllSpace(g2) && g1 != [] && g2 != []
    requires w1 != [] && NoSpace(w1) && w2 != [] && NoSpace(w2)
    requires rest != [] && !IsSpace(rest[0])
    ensures SplitFields(g0 + w1 + g1 + w2 + g2 + rest) == [w1, w2, rest]
  {
    var t2 := w2 + g2 + rest;
    var t1 := w1 + g1 + t2;
    assert g0 + w1 + g1 + w2 + g2 + rest == g0 + t1;
    SkipBlankPrefix(g0, t1);
    FirstWordOf(w1, g1, t2);
    FirstWordOf(w2, g2, rest);
  }

  /** Two words and a remainder, without leading blanks, are three fields. */
  lemma SplitOfTriple(w1: string, g1: string, w2: string, g2: string, rest: string)
    requires AllSpace(g1) && AllSpace(g2) && g1 != [] && g2 != []
    requires w1 != [] && NoSpace(w1) && w2 != [] && NoSpace(w2)
    requires rest != [] && !IsSpace(rest[0])
    ensures SplitFields(w1 + g1 + w2 + g2 + rest) == [w1, w2, rest]
  {
    var t2 := w2 + g2 + rest;
    assert w1 + g1 + w2 + g2 + rest == w1 + g1 + t2;
    FirstWordOf(w1, g1, t2);
    FirstWordOf(w2, g2, rest);
  }

  /** A single word is a single field. */
  lemma SplitOfWord(w: string)
    requires w != [] && NoSpace(w)
    ensures SplitFields(w) == [w]
  {
    SkipBlankPrefix([], w);
    assert [] + w == w;
    WordThenBlank(w, []);
    assert w + [] == w;
  }

  /** Two words separated by blanks are two fields. */
  lemma SplitOfPair(w1: string, g: string, w2: string)
    requires w1 != [] && NoSpace(w1) && w2 != [] && NoSpace(w2)
    requires g != [] && AllSpace(g)
    ensures SplitFields(w1 + g + w2) == [w1, w2]
  {
    var s := w1 + g + w2;
    SkipBlankPrefix([], s);
    assert [] + s == s;
    FirstWordOf(w1, g, w2);
    WordThenBlank(w2, []);
    assert w2 + [] == w2;
  }

  /** Blanks after a string that ends with a non-blank are all trimmed. */
  lemma {:induction false} TrimBlankSuffix(t: string, g: string)
    requires AllSpace(g)
    requires t == [] || !IsSpace(t[|t| - 1])
    ensures TrimEnd(t + g) == t
  {
    if g != [] {
      assert (t + g)[..|t + g| - 1] == t + g[..|g| - 1];
      TrimBlankSuffix(t, g[..|g| - 1]);
    } else {
      assert t + g == t;
    }
  }

  /** Stripping a text framed by blanks gives back the text, when it
      starts and ends with a non-blank. */
  lemma StripFramed(a: string, t: string, b: string)
    requires AllSpace(a) && AllSpace(b)
    requires t != [] && !IsSpace(t[0]) && !IsSpace(t[|t| - 1])
    ensures Strip(a + t + b) == t
  {
    assert a + t + b == a + (t + b);
    SkipBlankPrefix(a, t + b);
    TrimBlankSuffix(t, b);
  }

  /** Stripping removes exactly the blanks: a stripped string is empty
      exactly when the input was blank. */
  lemma StripBlank(s: string)
    ensures Strip(s) == [] <==> AllSpace(s)
  {
    BlankIffSkipsAll(s);
    var t := SkipSpace(s);
    if t != [] {
      assert TrimEnd(t) != [] by { assert !IsSpace(t[0]); }
    }
  }

  /** Stripping twice is stripping once. */
  lemma StripIdempotent(s: string)
    ensures Strip(Strip(s)) == Strip(s)
  {
    var r := Strip(s);
    assert SkipSpace(r) == r;
    assert TrimEnd(r) == r;
  }

  /** One character of Python's `str.lower()` as it can matter when the
      result is compared with an ASCII string: ASCII capitals fold, and the
      KELVIN SIGN is the one non-ASCII character that lowers to ASCII ('k'). */
  function LowerChar(c: char): char {
    if 'A' <= c <= 'Z' then (c as int + 32) as char
    else if c == '\U{212A}' then 'k'
    else c
  }

  function Lower(s: string): (r: string)
    ensures |r| == |s|
    ensures forall i :: 0 <= i < |s| ==> r[i] == LowerChar(s[i])
  {
    seq(|s|, i requires 0 <= i < |s| => LowerChar(s[i]))
  }

  /** Python's `s[:n]`. */
  function Take(s: string, n: nat): (r: string)
    ensures |r| <= n && |r| <= |s| && r == s[..|r|]
    ensures |s| <= n ==> r == s
    ensures |s| > n ==> r == s[..n]
  {
    if |s| <= n then s else s[..n]
  }

  predicate IsDigit(c: char) {
    '0' <= c <= '9'
  }

  function Digit(d: nat): (c: char)
    requires d < 10
    ensures IsDigit(c) && c as int - '0' as int == d
  {
    ('0' as int + d) as char
  }

  /** `str(n)` for a natural number: its decimal digits, most significant first. */
  function Decimal(n: nat): (r: string)
    ensures r != []
    ensures forall i :: 0 <= i < |r| ==> IsDigit(r[i])
  {
    if n < 10 then [Digit(n)] else Decimal(n / 10) + [Digit(n % 10)]
  }

  /** The number a string of decimal digits denotes. */
  function DigitsValue(s: string): nat
    requires forall i :: 0 <= i < |s| ==> IsDigit(s[i])
  {
    if s == [] then 0
    else
      assert IsDigit(s[|s| - 1]);
      DigitsValue(s[..|s| - 1]) * 10 + (s[|s| - 1] as int - '0' as int)
  }

  /** Reading back the rendering of `n` gives `n`. */
  lemma {:induction false} DecimalRoundTrip(n: nat)
    ensures DigitsValue(Decimal(n)) == n
  {
    if n >= 10 {
      var d := Decimal(n / 10);
      DecimalRoundTrip(n / 10);
      assert (d + [Digit(n % 10)])[..|d|] == d;
    }
  }

  /** Distinct numbers render as distinct strings. */
  lemma DecimalInjective(a: nat, b: nat)
    requires Decimal(a) == Decimal(b)
    ensures a == b
  {
    DecimalRoundTrip(a);
    DecimalRoundTrip(b);
  }

  /** A number below 100 as two decimal digits, with a leading zero. */
  function Pad2(n: nat): (r: string)
    requires n < 100
    ensures |r| == 2 && IsDigit(r[0]) && IsDigit(r[1])
    ensures DigitsValue(r) == n
  {
    var r := [Digit(n / 10), Digit(n % 10)];
    assert r[..1] == [r[0]] && [r[0]][..0] == [];
    assert DigitsValue([r[0]]) == n / 10;
    assert DigitsValue(r) == (n / 10) * 10 + n % 10;
    r
  }

  /** `strftime("%H:%M:%S")` of a UTC instant given in milliseconds since
      the epoch (Dafny's `/` and `%` floor, as Python's datetime does): two
      digits each of hour, minute and second, which together are the
      seconds elapsed since midnight. */
  function Clock(at: int): (r: string)
    ensures |r| == 8 && r[2] == ':' && r[5] == ':'
    ensures forall i :: 0 <= i < 8 && i != 2 && i != 5 ==> IsDigit(r[i])
    ensures DigitsValue(r[..2]) < 24 && DigitsValue(r[3..5]) < 60 && DigitsValue(r[6..]) < 60
    ensures DigitsValue(r[..2]) * 3600 + DigitsValue(r[3..5]) * 60 + DigitsValue(r[6..]) == (at / 1000) % 86_400
  {
    var day := (at / 1000) % 86_400;
    var hh, mm, ss := Pad2(day / 3600), Pad2((day / 60) % 60), Pad2(day % 60);
    var r := hh + ":" + mm + ":" + ss;
    assert r[..2] == hh && r[3..5] == mm && r[6..] == ss;
    SinceMidnight(day);
    r
  }

  /** Hours, minutes and seconds of the day add up to the seconds since midnight. */
  lemma SinceMidnight(day: nat)
    requires day < 86_400
    ensures day / 3600 < 24
    ensures (day / 3600) * 3600 + ((day / 60) % 60) * 60 + day % 60 == day
  {
    var a, sec := day / 60, day % 60;
    var h, m := a / 60, a % 60;
    assert day == 60 * a + sec;
    assert a == 60 * h + m;
    assert day / 3600 == h by {
      assert day == 3600 * h + (60 * m + sec);
    }
  }

  lemma DayShift(at: int)
    ensures ((at + 86_400_000) / 1000) % 86_400 == (at / 1000) % 86_400
  {
    assert (at + 86_400_000) / 1000 == at / 1000 + 86_400;
  }

  /** The clock shows the time of day only: a day later it reads the same. */
  lemma ClockIsTimeOfDay(at: int)
    ensures Clock(at + 86_400_000) == Clock(at)
  {
    DayShift(at);
  }
}
