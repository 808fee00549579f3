/** The two pieces of Python string behaviour the front-ends rely on:
    `str.strip()` and the decimal rendering of a non-negative `int`
    (as in `f"Column_{i}"`) and of a list of ints (as in `f"{pos_list}"`). */
module PyStr {

  /** Python's `str.isspace()` for one character: the ASCII whitespace
      and separator controls plus the Unicode space separators. */
  predicate IsSpace(c: char) {
    var n := c as int;
    (9 <= n <= 13) || (28 <= n <= 32) || n == 0x85 || n == 0xA0 || n == 0x1680
    || (0x2000 <= n <= 0x200A) || n == 0x2028 || n == 0x2029 || n == 0x202F
    || n == 0x205F || n == 0x3000
  }

  predicate AllSpace(s: string) {
    forall i :: 0 <= i < |s| ==> IsSpace(s[i])
  }

  /** Neither end of `s` is whitespace: what `strip()` leaves behind. */
  predicate Stripped(s: string) {
    s == [] || (!IsSpace(s[0]) && !IsSpace(s[|s| - 1]))
  }

  /** `s.lstrip()` */
  function StripLeading(s: string): (r: string)
    ensures |r| <= |s| && r == s[|s| - |r|..]
    ensures r == [] || !IsSpace(r[0])
    ensures AllSpace(s[..|s| - |r|])
  {
    if |s| > 0 && IsSpace(s[0]) then
      var r := StripLeading(s[1..]);
      assert s[..|s| - |r|] == [s[0]] + s[1..][..|s| - 1 - |r|];
      r
    else s
  }

  /** `s.rstrip()` */
  function StripTrailing(s: string): (r: string)
    ensures |r| <= |s| && r == s[..|r|]
    ensures r == [] || !IsSpace(r[|r| - 1])
    ensures AllSpace(s[|r|..])
  {
    if |s| > 0 && IsSpace(s[|s| - 1]) then
      var r := StripTrailing(s[..|s| - 1]);
      assert s[|r|..] == s[..|s| - 1][|r|..] + [s[|s| - 1]];
      r
    else s
  }

  /** `s.strip()` */
  function Strip(s: string): (r: string)
    ensures Stripped(r)
    ensures |r| <= |s|
  {
    StripTrailing(StripLeading(s))
  }

  /** `strip()` removes only whitespace, and only from the two ends. */
  lemma StripSplit(s: string) returns (lead: string, trail: string)
    ensures s == lead + Strip(s) + trail
    ensures AllSpace(lead) && AllSpace(trail)
  {
    var m := StripLeading(s);
    var r := StripTrailing(m);
    lead := s[..|s| - |m|];
    trail := m[|r|..];
    SplitAt(s, |s| - |m|);
    SplitAt(m, |r|);
    Regroup(lead, r, trail);
  }

  lemma Regroup(a: string, b: string, c: string)
    ensures a + (b + c) == a + b + c
  {
  }

  lemma SplitAt(s: string, k: nat)
    requires k <= |s|
    ensures s == s[..k] + s[k..]
  {
  }

  /** An independent description of `strip()`: whatever whitespace-only
      prefix and suffix surround a stripped core, `strip()` yields that core. */
  lemma StripUnique(p: string, m: string, q: string)
    requires AllSpace(p) && AllSpace(q) && Stripped(m)
    ensures Strip(p + m + q) == m
  {
    if m == [] {
      assert p + m + q == p + q;
      SpaceConcat(p, q);
      StripOfSpace(p + q);
    } else {
      StripOfCore(p, m, q);
    }
  }

  lemma SpaceConcat(p: string, q: string)
    requires AllSpace(p) && AllSpace(q)
    ensures AllSpace(p + q)
  {
    forall i | 0 <= i < |p + q| ensures IsSpace((p + q)[i]) {
      if i < |p| { assert (p + q)[i] == p[i]; } else { assert (p + q)[i] == q[i - |p|]; }
    }
  }

  /** An all-whitespace string strips to nothing. */
  lemma StripOfSpace(s: string)
    requires AllSpace(s)
    ensures Strip(s) == []
  {
    assert s + [] == s;
    LeadingOfSpacePrefix(s, []);
  }

  /** Whitespace around a non-empty stripped core strips to that core. */
  lemma StripOfCore(p: string, m: string, q: string)
    requires AllSpace(p) && AllSpace(q) && m != [] && Stripped(m)
    ensures Strip(p + m + q) == m
  {
    assert p + m + q == p + (m + q);
    assert (m + q)[0] == m[0];
    LeadingOfSpacePrefix(p, m + q);
    TrailingOfSpaceSuffix(m, q);
  }

  lemma {:induction false} LeadingOfSpacePrefix(p: string, rest: string)
    requires AllSpace(p)
    requires rest == [] || !IsSpace(rest[0])
    ensures StripLeading(p + rest) == rest
    decreases |p|
  {
    if p != [] {
      assert (p + rest)[1..] == p[1..] + rest;
      LeadingOfSpacePrefix(p[1..], rest);
    } else {
      assert p + rest == rest;
    }
  }

  lemma {:induction false} TrailingOfSpaceSuffix(m: string, q: string)
    requires AllSpace(q)
    requires m == [] || !IsSpace(m[|m| - 1])
    ensures StripTrailing(m + q) == m
    decreases |q|
  {
    if q != [] {
      assert (m + q)[..|m + q| - 1] == m + q[..|q| - 1];
      TrailingOfSpaceSuffix(m, q[..|q| - 1]);
    } else {
      assert m + q == m;
    }
  }

  /** Stripping twice is stripping once. */
  lemma StripIdempotent(s: string)
    ensures Strip(Strip(s)) == Strip(s)
  {
    var r := Strip(s);
    StripUnique([], r, []);
    assert [] + r + [] == r;
  }

  /** A string strips to nothing exactly when it is all whitespace. */
  lemma StripBlank(s: string)
    ensures Strip(s) == [] <==> AllSpace(s)
  {
    var lead, trail := StripSplit(s);
    if Strip(s) == [] {
      assert s == lead + trail;
      forall i | 0 <= i < |s| ensures IsSpace(s[i]) {
        if i < |lead| { assert s[i] == lead[i]; } else { assert s[i] == trail[i - |lead|]; }
      }
    }
    if AllSpace(s) {
      StripUnique(s, [], []);
      assert s + [] + [] == s;
    }
  }

  predicate IsDigit(c: char) { '0' as int <= c as int <= '9' as int }

  function DigitChar(d: nat): (c: char)
    requires d < 10
    ensures IsDigit(c) && c as int - '0' as int == d
  {
    ('0' as int + d) as char
  }

  /** `str(n)` for a non-negative `int`: its decimal digits, most significant first. */
  function NatToString(n: nat): (r: string)
    ensures |r| >= 1
    ensures forall i :: 0 <= i < |r| ==> IsDigit(r[i])
  {
    if n < 10 then [DigitChar(n)] else NatToString(n / 10) + [DigitChar(n % 10)]
  }

  /** The number a string of decimal digits denotes: the partner of NatToString. */
  function DecimalValue(s: string): nat
    requires forall i :: 0 <= i < |s| ==> IsDigit(s[i])
  {
    if s == [] then 0
    else
      assert IsDigit(s[|s| - 1]);
      DecimalValue(s[..|s| - 1]) * 10 + (s[|s| - 1] as int - '0' as int)
  }

  /** Rendering then reading back gives the number again. */
  lemma {:induction false} DecimalRoundTrip(n: nat)
    ensures DecimalValue(NatToString(n)) == n
  {
    if n >= 10 {
      var r := NatToString(n);
      assert r[..|r| - 1] == NatToString(n / 10);
      DecimalRoundTrip(n / 10);
    }
  }

  /** Distinct numbers render as distinct strings. */
  lemma NatToStringInjective(m: nat, n: nat)
    requires NatToString(m) == NatToString(n)
    ensures m == n
  {
    DecimalRoundTrip(m);
    DecimalRoundTrip(n);
  }

  /** `", ".join(str(x) for x in xs)` */
  function JoinInts(xs: seq<nat>): string
  {
    if xs == [] then ""
    else if |xs| == 1 then NatToString(xs[0])
    else JoinInts(xs[..|xs| - 1]) + ", " + NatToString(xs[|xs| - 1])
  }

  /** `str(xs)` for a Python list of non-negative ints, e.g. `[3, 9]`. */
  function ListRepr(xs: seq<nat>): (r: string)
    ensures |r| >= 2 && r[0] == '[' && r[|r| - 1] == ']'
  {
    "[" + JoinInts(xs) + "]"
  }

  /** The length of the run of digits that ends `s`. */
  function DigitSuffixLength(s: string): (k: nat)
    ensures k <= |s|
    ensures forall i :: |s| - k <= i < |s| ==> IsDigit(s[i])
    ensures k < |s| ==> !IsDigit(s[|s| - k - 1])
  {
    if s != [] && IsDigit(s[|s| - 1]) then
      var k := DigitSuffixLength(s[..|s| - 1]);
      assert forall i :: |s| - 1 - k <= i < |s| - 1 ==> s[..|s| - 1][i] == s[i];
      k + 1
    else 0
  }

  /** Reads back a `", "`-separated list of decimal numbers, from the
      last entry to the first: the partner of JoinInts. */
  function ParseInts(s: string): seq<nat>
    decreases |s|
  {
    if s == [] then []
    else
      var k := DigitSuffixLength(s);
      var last := s[|s| - k..];
      assert forall i :: 0 <= i < |last| ==> last[i] == s[|s| - k + i];
      var rest := s[..|s| - k];
      (if |rest| >= 2 then ParseInts(rest[..|rest| - 2]) else []) + [DecimalValue(last)]
  }

  /** Digits appended after text that does not end in a digit form the
      whole digit run at the end. */
  lemma {:induction false} DigitSuffixOfAppend(a: string, d: string)
    requires d != [] && forall i :: 0 <= i < |d| ==> IsDigit(d[i])
    requires a == [] || !IsDigit(a[|a| - 1])
    ensures DigitSuffixLength(a + d) == |d|
  {
    var s := a + d;
    if |d| == 1 {
      assert s[..|s| - 1] == a;
    } else {
      assert s[..|s| - 1] == a + d[..|d| - 1];
      DigitSuffixOfAppend(a, d[..|d| - 1]);
    }
  }

  /** Reading `a + d`, for digits `d` after a separator or nothing, takes
      `d` as the last entry and reads on before the separator. */
  lemma ParseIntsStep(a: string, d: string)
    requires d != [] && forall i :: 0 <= i < |d| ==> IsDigit(d[i])
    requires a == [] || (|a| >= 2 && a[|a| - 1] == ' ')
    ensures ParseInts(a + d) == (if a == [] then [] else ParseInts(a[..|a| - 2])) + [DecimalValue(d)]
  {
    var s := a + d;
    DigitSuffixOfAppend(a, d);
    assert s[|s| - |d|..] == d && s[..|s| - |d|] == a;
  }

  /** Reading a joined list back gives the list again. */
  lemma {:induction false} JoinIntsRoundTrip(xs: seq<nat>)
    ensures ParseInts(JoinInts(xs)) == xs
  {
    if xs != [] {
      var init, x := xs[..|xs| - 1], xs[|xs| - 1];
      assert xs == init + [x];
      var a := if |xs| == 1 then "" else JoinInts(init) + ", ";
      assert JoinInts(xs) == a + NatToString(x);
      ParseIntsStep(a, NatToString(x));
      DecimalRoundTrip(x);
      if |xs| > 1 {
        assert a[..|a| - 2] == JoinInts(init);
        JoinIntsRoundTrip(init);
      }
    }
  }

  /** The text between the brackets of `str(xs)` reads back as `xs`, so
      different position lists are rendered differently. */
  lemma ListReprRoundTrip(xs: seq<nat>)
    ensures var r := ListRepr(xs); ParseInts(r[1..|r| - 1]) == xs
  {
    var r := ListRepr(xs);
    assert r[1..|r| - 1] == JoinInts(xs);
    JoinIntsRoundTrip(xs);
  }
}
