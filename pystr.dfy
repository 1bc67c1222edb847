/**
 * The few Python built-ins on `str` and `list` that the interview code relies on,
 * with Python's own edge-case behaviour: slice clamping, `strip`, `split`,
 * `str(int)` and `int(str)`, `join`, `in` on strings and ASCII `lower`.
 */
module PyStr {
  import opened Wrappers

  // ---------------------------------------------------------------- slicing

  /** Python's normalisation of one slice bound against a sequence of length `n`. */
  function SliceBound(i: int, n: nat): (b: nat)
    ensures b <= n
    ensures 0 <= i <= n ==> b == i
    ensures i > n ==> b == n
    ensures i < 0 ==> b == if -i <= n then n + i else 0
  {
    if i < 0 then (if i + n < 0 then 0 else i + n) else if i > n then n else i
  }

  /** `s[start:stop]`: never fails, out-of-range and negative bounds are clamped. */
  function Slice<T>(s: seq<T>, start: int, stop: int): (r: seq<T>)
    ensures |r| <= |s|
    ensures 0 <= start <= stop <= |s| ==> r == s[start..stop]
    ensures start >= 0 && stop >= |s| ==> r == if start <= |s| then s[start..] else []
  {
    var lo, hi := SliceBound(start, |s|), SliceBound(stop, |s|);
    if lo < hi then s[lo..hi] else []
  }

  /** `s[:n]` for a non-negative `n` is the first `min(n, |s|)` elements. */
  lemma SlicePrefix<T>(s: seq<T>, n: int)
    requires n >= 0
    ensures Slice(s, 0, n) == if n <= |s| then s[..n] else s
  {
  }

  /** `s[-k:]` for a positive `k` is the last `min(k, |s|)` elements, in order. */
  lemma SliceLast<T>(s: seq<T>, k: int)
    requires k > 0
    ensures Slice(s, -k, |s|) == if k <= |s| then s[|s| - k..] else s
  {
  }

  // ------------------------------------------------------------- predicates

  predicate StartsWith(s: string, p: string) {
    |p| <= |s| && s[..|p|] == p
  }

  /** A prefix of `s` stays a prefix of anything `s` is extended to. */
  lemma StartsWithAppend(s: string, p: string, t: string)
    requires StartsWith(s, p)
    ensures StartsWith(s + t, p)
  {
    assert (s + t)[..|p|] == s[..|p|];
  }


  lemma StartsWithTrans(s: string, p: string, q: string)
    requires StartsWith(s, p) && StartsWith(p, q)
    ensures StartsWith(s, q)
  {
    assert s[..|q|] == s[..|p|][..|q|];
  }

  predicate EndsWith(s: string, p: string) {
    |p| <= |s| && s[|s| - |p|..] == p
  }

  /** `needle in hay` on strings. */
  predicate Contains(hay: string, needle: string)
    decreases |hay|
  {
    StartsWith(hay, needle) || (|hay| > 0 && Contains(hay[1..], needle))
  }

  /** `str.isspace()` on one character: the full set Python treats as whitespace. */
  predicate IsSpace(c: char) {
    ('\t' <= c <= '\r') || ('\U{1c}' <= c <= '\U{1f}') || c == ' '
    || c == '\U{85}' || c == '\U{a0}' || c == '\U{1680}'
    || ('\U{2000}' <= c <= '\U{200a}') || c == '\U{2028}' || c == '\U{2029}'
    || c == '\U{202f}' || c == '\U{205f}' || c == '\U{3000}'
  }

  predicate NoSpace(s: string) {
    forall i :: 0 <= i < |s| ==> !IsSpace(s[i])
  }

  // -------------------------------------------------------------- stripping

  /** `s.lstrip()`: the suffix left after dropping leading whitespace. */
  function LStrip(s: string): (r: string)
    ensures |r| <= |s|
    ensures r != [] ==> !IsSpace(r[0])
  {
    if |s| > 0 && IsSpace(s[0]) then LStrip(s[1..]) else s
  }

  /** `lstrip` removes exactly the leading run of whitespace. */
  lemma {:induction false} LStripSpec(s: string)
    ensures var r := LStrip(s);
      && r == s[|s| - |r|..]
      && forall i :: 0 <= i < |s| - |r| ==> IsSpace(s[i])
    decreases |s|
  {
    if |s| > 0 && IsSpace(s[0]) {
      LStripSpec(s[1..]);
    }
  }

  /** `s.rstrip()`: the prefix left after dropping trailing whitespace. */
  function RStrip(s: string): (r: string)
    ensures |r| <= |s|
    ensures r != [] ==> !IsSpace(r[|r| - 1])
  {
    if |s| > 0 && IsSpace(s[|s| - 1]) then RStrip(s[..|s| - 1]) else s
  }

  /** `rstrip` removes exactly the trailing run of whitespace. */
  lemma {:induction false} RStripSpec(s: string)
    ensures var r := RStrip(s);
      && r == s[..|r|]
      && forall i :: |r| <= i < |s| ==> IsSpace(s[i])
    decreases |s|
  {
    if |s| > 0 && IsSpace(s[|s| - 1]) {
      RStripSpec(s[..|s| - 1]);
    }
  }

  /** `s.strip()`. */
  function Strip(s: string): string {
    RStrip(LStrip(s))
  }

  /** A string that neither starts nor ends with whitespace is its own `strip()`. */
  lemma StripNoEdgeSpace(s: string)
    requires s != [] ==> !IsSpace(s[0]) && !IsSpace(s[|s| - 1])
    ensures Strip(s) == s
  {
  }

  /** One leading space before a word that does not start with whitespace is stripped. */
  lemma LStripOneSpace(s: string)
    requires s != [] ==> !IsSpace(s[0])
    ensures LStrip(" " + s) == s
  {
    assert (" " + s)[1..] == s;
  }

  // --------------------------------------------------------------- splitting

  /** `s.split(sep)` for a one-character separator: never an empty list. */
  function SplitOn(s: string, sep: char): (r: seq<string>)
    ensures |r| >= 1
    decreases |s|
  {
    if |s| == 0 then [""]
    else if s[0] == sep then [""] + SplitOn(s[1..], sep)
    else
      var rest := SplitOn(s[1..], sep);
      [[s[0]] + rest[0]] + rest[1..]
  }

  /** Splitting at the first separator: the first piece is everything before it. */
  lemma {:induction false} SplitOnFirst(s: string, sep: char, i: nat)
    requires i < |s| && s[i] == sep && sep !in s[..i]
    ensures SplitOn(s, sep) == [s[..i]] + SplitOn(s[i + 1..], sep)
    decreases i
  {
    if i > 0 {
      assert s[1..][..i - 1] == s[1..i];
      assert s[1..][i..] == s[i + 1..];
      assert s[1..i] == s[..i][1..];
      SplitOnFirst(s[1..], sep, i - 1);
      assert [s[0]] + s[1..i] == s[..i];
    }
  }

  /** A string without the separator splits into itself alone. */
  lemma {:induction false} SplitOnAbsent(s: string, sep: char)
    requires sep !in s
    ensures SplitOn(s, sep) == [s]
    decreases |s|
  {
    if |s| > 0 {
      SplitOnAbsent(s[1..], sep);
      assert [s[0]] + s[1..] == s;
    }
  }

  /** The leading run of non-whitespace characters of `s`. */
  function Token(s: string): (r: string)
    ensures |r| <= |s|
    ensures s != [] && !IsSpace(s[0]) ==> |r| >= 1
  {
    if |s| == 0 || IsSpace(s[0]) then [] else [s[0]] + Token(s[1..])
  }

  /** The token is a whitespace-free prefix that ends at whitespace or at the end. */
  lemma {:induction false} TokenSpec(s: string)
    ensures var r := Token(s);
      && r == s[..|r|] && NoSpace(r)
      && (|r| < |s| ==> IsSpace(s[|r|]))
    decreases |s|
  {
    if |s| > 0 && !IsSpace(s[0]) {
      TokenSpec(s[1..]);
    }
  }

  /** A whitespace-free string is one whole token. */
  lemma {:induction false} TokenWhole(s: string)
    requires NoSpace(s)
    ensures Token(s) == s
    decreases |s|
  {
    if |s| > 0 {
      TokenWhole(s[1..]);
      assert [s[0]] + s[1..] == s;
    }
  }

  /** `s.split()` with no argument: the whitespace-separated words. */
  function Words(s: string): (r: seq<string>)
    decreases |s|
  {
    var t := LStrip(s);
    if t == [] then []
    else
      var w := Token(t);
      [w] + Words(t[|w|..])
  }

  /** A non-empty string with no whitespace is one word. */
  lemma WordsSingle(s: string)
    requires s != [] && NoSpace(s)
    ensures Words(s) == [s]
  {
    assert LStrip(s) == s;
    TokenWhole(s);
    assert s[|s|..] == [];
  }

  /** Cutting a string anywhere after its first token keeps that token. */
  lemma {:induction false} TokenOfPrefix(s: string, k: nat)
    requires |Token(s)| <= k <= |s|
    ensures Token(s[..k]) == Token(s)
    decreases |s|
  {
    if |s| > 0 && !IsSpace(s[0]) {
      assert s[..k][1..] == s[1..][..k - 1];
      TokenOfPrefix(s[1..], k - 1);
    }
  }

  /** A token cannot reach into a whitespace-only tail. */
  lemma {:induction false} TokenBefore(s: string, k: nat)
    requires k <= |s| && forall i :: k <= i < |s| ==> IsSpace(s[i])
    ensures |Token(s)| <= k
    decreases |s|
  {
    if |s| > 0 && !IsSpace(s[0]) {
      TokenBefore(s[1..], k - 1);
    }
  }

  /** `s.strip().split()` is empty exactly when `s` is all whitespace, and otherwise
      starts with the first token after the leading whitespace. */
  lemma FirstWordOfStrip(s: string)
    ensures Words(Strip(s)) == [] <==> LStrip(s) == []
    ensures LStrip(s) != [] ==> Words(Strip(s))[0] == Token(LStrip(s))
  {
    var t := LStrip(s);
    if t != [] {
      var u := RStrip(t);
      RStripSpec(t);
      assert |u| >= 1;
      assert u[0] == t[0];
      assert LStrip(u) == u;
      TokenSpec(t);
      TokenBefore(t, |u|);
      TokenOfPrefix(t, |u|);
    }
  }

  // ------------------------------------------------------------- joining

  /** `sep.join(xs)`. */
  function Join(sep: string, xs: seq<string>): string
    decreases |xs|
  {
    if |xs| == 0 then ""
    else if |xs| == 1 then xs[0]
    else xs[0] + sep + Join(sep, xs[1..])
  }

  /** A join begins with its first part and ends with its last. */
  lemma {:induction false} JoinEnds(sep: string, xs: seq<string>)
    ensures |xs| > 0 ==> StartsWith(Join(sep, xs), xs[0]) && EndsWith(Join(sep, xs), xs[|xs| - 1])
    decreases |xs|
  {
    if |xs| > 1 {
      var rest := Join(sep, xs[1..]);
      JoinEnds(sep, xs[1..]);
      var j := xs[0] + sep + rest;
      var last := xs[|xs| - 1];
      assert j[..|xs[0]|] == xs[0];
      assert j[|j| - |last|..] == rest[|rest| - |last|..];
    }
  }

  /** `c * n` for one character. */
  function Repeat(c: char, n: nat): (r: string)
    ensures |r| == n && forall i :: 0 <= i < n ==> r[i] == c
  {
    seq(n, _ => c)
  }

  /** The Kelvin sign, U+212A, which `str.lower()` maps to the ASCII letter `k`. */
  const KelvinSign: char := '\U{212A}'

  /** `c.lower()` where it yields one ASCII letter: `A`..`Z` and the Kelvin sign; every
      other character is kept. */
  function LowerChar(c: char): (l: char)
    ensures 'A' <= c <= 'Z' ==> l as int == c as int + 32
    ensures c == KelvinSign ==> l == 'k'
    ensures !('A' <= c <= 'Z') && c != KelvinSign ==> l == c
  {
    if 'A' <= c <= 'Z' then (c as int + 32) as char
    else if c == KelvinSign then 'k'
    else c
  }

  /** `s.lower()`, character by character as `LowerChar` maps them. */
  function Lower(s: string): (r: string)
    ensures |r| == |s|
    ensures forall i :: 0 <= i < |s| ==> r[i] == LowerChar(s[i])
  {
    seq(|s|, i requires 0 <= i < |s| => LowerChar(s[i]))
  }

  // ------------------------------------------------------- integers as text

  predicate IsDigit(c: char) {
    '0' <= c <= '9'
  }

  predicate IsDigits(s: string) {
    |s| >= 1 && forall i :: 0 <= i < |s| ==> IsDigit(s[i])
  }

  /** The value of a run of decimal digits. */
  function DigitsValue(s: string): nat
    requires forall i :: 0 <= i < |s| ==> IsDigit(s[i])
    decreases |s|
  {
    if |s| == 0 then 0 else DigitsValue(s[..|s| - 1]) * 10 + DigitValue(s[|s| - 1])
  }

  function DigitValue(c: char): (d: nat)
    requires IsDigit(c)
    ensures d < 10
  {
    c as int - '0' as int
  }

  function DigitChar(d: nat): (c: char)
    requires d < 10
    ensures IsDigit(c) && DigitValue(c) == d
  {
    ('0' as int + d) as char
  }

  /** `str(n)` for a natural number: decimal, no leading zeros. */
  function NatToString(n: nat): (r: string)
    ensures IsDigits(r)
    ensures |r| > 1 ==> r[0] != '0'
    decreases n
  {
    if n < 10 then [DigitChar(n)] else NatToString(n / 10) + [DigitChar(n % 10)]
  }

  /** `str(i)` for any integer. */
  function IntToString(i: int): (r: string)
    ensures r != [] && NoSpace(r) && ':' !in r && '\n' !in r
  {
    var r := if i < 0 then "-" + NatToString(-i) else NatToString(i);
    assert forall k :: 0 <= k < |r| ==> r[k] == '-' || IsDigit(r[k]);
    r
  }

  /** CPython's default cap on the digits `int()` converts from text (3.11 and later). */
  const MaxStrDigits := 4300

  /**
   * `int(tok)` on a whitespace-free token: an optional sign then one to `MaxStrDigits`
   * ASCII digits; anything else is the `ValueError` case, `None` here.
   */
  function ParseInt(tok: string): (r: Option<int>)
    ensures r.Some? ==> IsDigits(tok) || (|tok| >= 2 && (tok[0] == '+' || tok[0] == '-'))
    ensures r.Some? ==> |tok| <= MaxStrDigits + 1
  {
    if |tok| > 0 && (tok[0] == '+' || tok[0] == '-') then
      if IsDigits(tok[1..]) && |tok| - 1 <= MaxStrDigits then
        var v: int := DigitsValue(tok[1..]);
        Some(if tok[0] == '-' then -v else v)
      else None
    else if IsDigits(tok) && |tok| <= MaxStrDigits then Some(DigitsValue(tok))
    else None
  }

  /** The number of decimal digits `str(i)` writes, the sign not counted. */
  function DigitCount(i: int): (n: nat)
    ensures n >= 1
  {
    if i < 0 then |NatToString(-i)| else |NatToString(i)|
  }

  lemma {:induction false} DigitsValueOfNat(n: nat)
    ensures DigitsValue(NatToString(n)) == n
    decreases n
  {
    if n >= 10 {
      var s := NatToString(n);
      DigitsValueOfNat(n / 10);
      assert s[..|s| - 1] == NatToString(n / 10);
    }
  }

  /** `int(str(i)) == i` for an integer within the digit cap. */
  lemma ParseIntOfString(i: int)
    requires DigitCount(i) <= MaxStrDigits
    ensures ParseInt(IntToString(i)) == Some(i)
  {
    if i < 0 {
      var digits := NatToString(-i);
      var tok := "-" + digits;
      DigitsValueOfNat(-i);
      assert tok[0] == '-' && tok[1..] == digits;
      assert IntToString(i) == tok;
    } else {
      var digits := NatToString(i);
      DigitsValueOfNat(i);
      assert IsDigit(digits[0]);
      assert IntToString(i) == digits;
    }
  }

  /** Past the digit cap `int(str(i))` raises `ValueError`. */
  lemma ParseIntOverCap(i: int)
    requires DigitCount(i) > MaxStrDigits
    ensures ParseInt(IntToString(i)) == None
  {
    if i < 0 {
      var tok := "-" + NatToString(-i);
      assert tok[0] == '-' && tok[1..] == NatToString(-i);
      assert IntToString(i) == tok;
    } else {
      assert IntToString(i) == NatToString(i);
      assert IsDigit(NatToString(i)[0]);
    }
  }
}
