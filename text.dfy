/** The string operations the application relies on: rendering a
    non-negative int in decimal (`f"{i}"`), `sep.join(xs)`, `str.strip()`
    and `str.replace('\\n', '\n')`. */
module Text {

  // ---------------------------------------------------------------------
  // Decimal rendering of a non-negative int
  // ---------------------------------------------------------------------

  predicate IsDigit(c: char) {
    '0' <= c <= '9'
  }

  function DigitChar(d: nat): (c: char)
    requires d < 10
    ensures IsDigit(c) && c as int - '0' as int == d
  {
    (48 + d) as char
  }

  /** `str(n)` for `n >= 0`: digits only, most significant first, no
      leading zero except for `0` itself. */
  function Decimal(n: nat): (s: string)
    ensures 1 <= |s|
    ensures forall k :: 0 <= k < |s| ==> IsDigit(s[k])
    ensures n < 10 <==> |s| == 1
    ensures s[0] == '0' ==> n == 0
    decreases n
  {
    if n < 10 then [DigitChar(n)] else Decimal(n / 10) + [DigitChar(n % 10)]
  }

  /** Reading a string of digits back as a number, most significant first. */
  function DigitsValue(s: string): int
    requires forall k :: 0 <= k < |s| ==> IsDigit(s[k])
  {
    if s == [] then 0 else 10 * DigitsValue(s[..|s| - 1]) + (s[|s| - 1] as int - '0' as int)
  }

  /** Reading the decimal rendering back gives the number. */
  lemma {:induction false} DecimalValue(n: nat)
    ensures DigitsValue(Decimal(n)) == n
    decreases n
  {
    if n >= 10 {
      DecimalValue(n / 10);
      assert Decimal(n)[..|Decimal(n)| - 1] == Decimal(n / 10);
    }
  }

  /** Distinct numbers have distinct decimal renderings. */
  lemma {:induction false} DecimalInjective(m: nat, n: nat)
    requires Decimal(m) == Decimal(n)
    ensures m == n
    decreases m
  {
    var dm, dn := Decimal(m), Decimal(n);
    if m < 10 {
      assert n < 10;
      assert DigitChar(m) == dm[0] == dn[0] == DigitChar(n);
    } else {
      assert n >= 10;
      assert DigitChar(m % 10) == dm[|dm| - 1] == dn[|dn| - 1] == DigitChar(n % 10);
      assert Decimal(m / 10) == dm[..|dm| - 1] == dn[..|dn| - 1] == Decimal(n / 10);
      DecimalInjective(m / 10, n / 10);
    }
  }

  // ---------------------------------------------------------------------
  // sep.join(xs)
  // ---------------------------------------------------------------------

  /** `sep.join(xs)`: the pieces in order, one separator between
      consecutive pieces, none before the first or after the last. */
  function Join(sep: string, xs: seq<string>): (r: string)
    ensures xs == [] ==> r == ""
    ensures |xs| == 1 ==> r == xs[0]
  {
    if |xs| == 0 then ""
    else if |xs| == 1 then xs[0]
    else xs[0] + sep + Join(sep, xs[1..])
  }

  /** Where piece `i` of `xs` starts in `Join(sep, xs)`: the lengths of the
      pieces before it and of one separator after each of them. */
  function Offset(sep: string, xs: seq<string>, i: nat): nat
    requires i <= |xs|
  {
    if i == 0 then 0 else |xs[0]| + |sep| + Offset(sep, xs[1..], i - 1)
  }

  /** A slice of `a + b` that lies inside `b`. */
  lemma SliceOfSuffix(a: string, b: string, lo: nat, hi: nat)
    requires lo <= hi <= |b|
    ensures (a + b)[|a| + lo..|a| + hi] == b[lo..hi]
  {
  }

  /** `Join(sep, xs)` with at least two pieces: the first, a separator,
      and the join of the rest. */
  lemma JoinCons(sep: string, xs: seq<string>)
    requires |xs| > 1
    ensures Join(sep, xs) == (xs[0] + sep) + Join(sep, xs[1..])
  {
  }

  /** Piece `i` of `xs` sits verbatim at `Offset(sep, xs, i)` in
      `Join(sep, xs)`, and the last piece ends the string. */
  lemma {:induction false} JoinPieces(sep: string, xs: seq<string>, i: nat)
    requires i < |xs|
    ensures Offset(sep, xs, i) + |xs[i]| <= |Join(sep, xs)|
    ensures Join(sep, xs)[Offset(sep, xs, i)..Offset(sep, xs, i) + |xs[i]|] == xs[i]
    ensures i + 1 == |xs| ==> Offset(sep, xs, i) + |xs[i]| == |Join(sep, xs)|
  {
    if |xs| > 1 {
      var head, rest := xs[0] + sep, Join(sep, xs[1..]);
      JoinCons(sep, xs);
      if i == 0 {
        assert (head + rest)[..|xs[0]|] == xs[0];
      } else {
        var tail := xs[1..];
        assert tail[i - 1] == xs[i];
        JoinPieces(sep, tail, i - 1);
        var o := Offset(sep, tail, i - 1);
        SliceOfSuffix(head, rest, o, o + |xs[i]|);
      }
    }
  }

  /** Every piece of `xs` sits verbatim at its offset in `Join(sep, xs)`. */
  lemma JoinHoldsPieces(sep: string, xs: seq<string>)
    ensures forall i :: 0 <= i < |xs| ==>
              Offset(sep, xs, i) + |xs[i]| <= |Join(sep, xs)| &&
              Join(sep, xs)[Offset(sep, xs, i)..Offset(sep, xs, i) + |xs[i]|] == xs[i]
  {
    forall i | 0 <= i < |xs|
      ensures Offset(sep, xs, i) + |xs[i]| <= |Join(sep, xs)|
      ensures Join(sep, xs)[Offset(sep, xs, i)..Offset(sep, xs, i) + |xs[i]|] == xs[i]
    {
      JoinPieces(sep, xs, i);
    }
  }

  /** In `Join(sep, xs)` a separator follows every piece but the last. */
  lemma {:induction false} JoinSeparators(sep: string, xs: seq<string>, i: nat)
    requires i + 1 < |xs|
    ensures Offset(sep, xs, i) + |xs[i]| + |sep| <= |Join(sep, xs)|
    ensures Join(sep, xs)[Offset(sep, xs, i) + |xs[i]|..Offset(sep, xs, i) + |xs[i]| + |sep|] == sep
  {
    var head, rest := xs[0] + sep, Join(sep, xs[1..]);
    JoinCons(sep, xs);
    if i == 0 {
      assert (head + rest)[|xs[0]|..|head|] == sep;
    } else {
      var tail := xs[1..];
      assert tail[i - 1] == xs[i];
      JoinSeparators(sep, tail, i - 1);
      var e := Offset(sep, tail, i - 1) + |xs[i]|;
      SliceOfSuffix(head, rest, e, e + |sep|);
    }
  }

  /** Piece `i + 1` starts right after piece `i` and one separator; so a
      later piece always starts after an earlier one ends. */
  lemma {:induction false} OffsetNext(sep: string, xs: seq<string>, i: nat)
    requires i < |xs|
    ensures Offset(sep, xs, i + 1) == Offset(sep, xs, i) + |xs[i]| + |sep|
  {
    if i > 0 {
      OffsetNext(sep, xs[1..], i - 1);
    }
  }

  lemma {:induction false} OffsetIncreasing(sep: string, xs: seq<string>, i: nat, k: nat)
    requires i < k <= |xs|
    ensures Offset(sep, xs, i) + |xs[i]| + |sep| <= Offset(sep, xs, k)
    decreases k - i
  {
    OffsetNext(sep, xs, i);
    if i + 1 < k {
      OffsetIncreasing(sep, xs, i + 1, k);
    }
  }

  // ---------------------------------------------------------------------
  // str.strip()
  // ---------------------------------------------------------------------

  /** The characters Python's `str.isspace` accepts. */
  predicate IsSpace(c: char) {
    var n := c as int;
    9 <= n <= 13 || 28 <= n <= 32 || n == 0x85 || n == 0xA0 || n == 0x1680
    || 0x2000 <= n <= 0x200A || n == 0x2028 || n == 0x2029 || n == 0x202F || n == 0x205F || n == 0x3000
  }

  /** How many whitespace characters `s` starts with: `s.lstrip()` drops
      exactly these. */
  function LeadingSpaces(s: string): (n: nat)
    ensures n <= |s|
    ensures forall k :: 0 <= k < n ==> IsSpace(s[k])
    ensures n < |s| ==> !IsSpace(s[n])
  {
    if s != [] && IsSpace(s[0]) then 1 + LeadingSpaces(s[1..]) else 0
  }

  /** How many whitespace characters `s` ends with after position `lo`:
      `s.rstrip()` drops exactly these when `lo` is 0. */
  function TrailingSpaces(s: string, lo: nat): (n: nat)
    requires lo <= |s|
    ensures n <= |s| - lo
    ensures forall k :: |s| - n <= k < |s| ==> IsSpace(s[k])
    ensures n < |s| - lo ==> !IsSpace(s[|s| - n - 1])
  {
    if |s| > lo && IsSpace(s[|s| - 1]) then 1 + TrailingSpaces(s[..|s| - 1], lo) else 0
  }

  /** `s.strip()`: a contiguous part of `s`, everything outside it is
      whitespace, and it neither starts nor ends with whitespace. */
  function Strip(s: string): (r: string)
    ensures var lead := LeadingSpaces(s);
              && lead + |r| <= |s| && r == s[lead..lead + |r|]
              && (forall k :: 0 <= k < lead ==> IsSpace(s[k]))
              && (forall k :: lead + |r| <= k < |s| ==> IsSpace(s[k]))
              && (r != [] ==> !IsSpace(r[0]) && !IsSpace(r[|r| - 1]))
  {
    var lead := LeadingSpaces(s);
    s[lead..|s| - TrailingSpaces(s, lead)]
  }

  /** Stripping twice is stripping once. */
  lemma StripIdempotent(s: string)
    ensures Strip(Strip(s)) == Strip(s)
  {
    var r := Strip(s);
    assert LeadingSpaces(r) == 0;
    assert TrailingSpaces(r, 0) == 0;
  }

  // ---------------------------------------------------------------------
  // str.replace('\\n', '\n')
  // ---------------------------------------------------------------------

  /** `s` holds no backslash immediately followed by the letter `n`. */
  predicate NoEscapedNewline(s: string) {
    forall k :: 0 <= k < |s| - 1 ==> !(s[k] == '\\' && s[k + 1] == 'n')
  }

  /** `s` starts with a backslash followed by the letter `n`. */
  predicate StartsWithEscapedNewline(s: string) {
    2 <= |s| && s[0] == '\\' && s[1] == 'n'
  }

  /** `s.replace('\\n', '\n')`: a left-to-right scan that turns each
      backslash-`n` pair into one newline character. */
  function ReplaceEscapedNewlines(s: string): (r: string)
    ensures |r| <= |s|
    ensures r != [] ==> r[0] == if StartsWithEscapedNewline(s) then '\n' else s[0]
    ensures s != [] ==> r != []
    ensures NoEscapedNewline(r)
    ensures NoEscapedNewline(s) ==> r == s
  {
    if |s| < 2 then s
    else if StartsWithEscapedNewline(s) then "\n" + ReplaceEscapedNewlines(s[2..])
    else
      var rest := ReplaceEscapedNewlines(s[1..]);
      assert rest != [] ==> rest[0] == '\n' || rest[0] == s[1];
      [s[0]] + rest
  }

  /** The scan keeps every character before the first backslash-`n` pair
      and turns that pair into one newline; with the identity on inputs
      holding no pair, this determines the whole replacement. */
  lemma {:induction false} ReplaceAtFirstPair(a: string, b: string)
    requires NoEscapedNewline(a)
    ensures ReplaceEscapedNewlines(a + "\\n" + b) == a + "\n" + ReplaceEscapedNewlines(b)
    decreases |a|
  {
    var s := a + "\\n" + b;
    if a == [] {
      assert s[2..] == b;
    } else {
      PairFreeTail(a, b);
      ReplaceAtFirstPair(a[1..], b);
      assert a == [a[0]] + a[1..];
    }
  }

  /** One step of the scan past the first character of a non-empty,
      pair-free prefix `a`. */
  lemma PairFreeTail(a: string, b: string)
    requires a != [] && NoEscapedNewline(a)
    ensures NoEscapedNewline(a[1..])
    ensures ReplaceEscapedNewlines(a + "\\n" + b)
         == [a[0]] + ReplaceEscapedNewlines(a[1..] + "\\n" + b)
  {
    var s := a + "\\n" + b;
    assert s[1..] == a[1..] + "\\n" + b;
    assert s[0] == a[0];
    if |a| >= 2 {
      assert s[1] == a[1];
    }
  }
}
