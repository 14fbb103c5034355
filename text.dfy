/** The Python string operations the core relies on: `str.strip()`,
    `str.lower()`, `"\n".join(...)`, and `str(n)` for a non-negative integer. */
module Text {

  /** Python's `str.isspace()` for one character: the characters of Unicode
      category Zs and of bidirectional class WS, B or S. */
  predicate IsSpace(c: char) {
    || ('\t' <= c <= '\r')
    || ('\U{001C}' <= c <= '\U{001F}')
    || c == ' ' || c == '\U{0085}' || c == '\U{00A0}' || c == '\U{1680}'
    || ('\U{2000}' <= c <= '\U{200A}')
    || c == '\U{2028}' || c == '\U{2029}' || c == '\U{202F}' || c == '\U{205F}' || c == '\U{3000}'
  }

  predicate AllSpace(s: string) {
    forall i :: 0 <= i < |s| ==> IsSpace(s[i])
  }

  /** Scans forward from `k` over whitespace: the index of the first
      non-space at or after `k`, or `|s|`. */
  function SkipLeading(s: string, k: nat): (n: nat)
    requires k <= |s|
    ensures k <= n <= |s|
    ensures forall j :: k <= j < n ==> IsSpace(s[j])
    ensures n == |s| || !IsSpace(s[n])
    decreases |s| - k
  {
    if k < |s| && IsSpace(s[k]) then SkipLeading(s, k + 1) else k
  }

  /** Scans backward from `k` over whitespace, not below `lo`: the index just
      after the last non-space before `k`, or `lo`. */
  function SkipTrailing(s: string, lo: nat, k: nat): (n: nat)
    requires lo <= k <= |s|
    ensures lo <= n <= k
    ensures forall j :: n <= j < k ==> IsSpace(s[j])
    ensures n == lo || !IsSpace(s[n - 1])
  {
    if k > lo && IsSpace(s[k - 1]) then SkipTrailing(s, lo, k - 1) else k
  }

  /** Python's `s.strip()`: drop the whitespace at both ends. */
  function Strip(s: string): (r: string)
    ensures |r| <= |s|
  {
    var i := SkipLeading(s, 0);
    s[i..SkipTrailing(s, i, |s|)]
  }

  /** `s` is `t` with whitespace only before it, in the first `i`
      characters of `s`, and whitespace only after it. */
  predicate PaddedAt(s: string, t: string, i: int) {
    && 0 <= i <= |s| - |t|
    && t == s[i..i + |t|]
    && (forall j :: 0 <= j < i ==> IsSpace(s[j]))
    && (forall j :: i + |t| <= j < |s| ==> IsSpace(s[j]))
  }

  /** What the strip of `s` is: `s` with a whitespace-only prefix and a
      whitespace-only suffix removed, such that the result neither starts
      nor ends with whitespace. */
  lemma StripSpec(s: string)
    ensures exists i :: PaddedAt(s, Strip(s), i)
    ensures var r := Strip(s); r == [] || (!IsSpace(r[0]) && !IsSpace(r[|r| - 1]))
  {
    var i := SkipLeading(s, 0);
    var e := SkipTrailing(s, i, |s|);
    var r := s[i..e];
    assert r == Strip(s) && PaddedAt(s, r, i);
    if r != [] {
      assert r[0] == s[i] && r[|r| - 1] == s[e - 1];
    }
  }

  /** The strip is empty exactly when `s` is all whitespace. */
  lemma StripEmpty(s: string)
    ensures Strip(s) == [] <==> AllSpace(s)
  {
    var i := SkipLeading(s, 0);
    var e := SkipTrailing(s, i, |s|);
    if e > i {
      assert s[i] == Strip(s)[0];
    }
  }

  /** A scan that starts on a run of whitespace ending at `n` stops at `n`. */
  lemma {:induction false} SkipLeadingAt(s: string, k: nat, n: nat)
    requires k <= n <= |s|
    requires forall j :: k <= j < n ==> IsSpace(s[j])
    requires n == |s| || !IsSpace(s[n])
    ensures SkipLeading(s, k) == n
    decreases n - k
  {
    if k < n {
      SkipLeadingAt(s, k + 1, n);
    }
  }

  lemma {:induction false} SkipTrailingAt(s: string, lo: nat, n: nat, k: nat)
    requires lo <= n <= k <= |s|
    requires forall j :: n <= j < k ==> IsSpace(s[j])
    requires n == lo || !IsSpace(s[n - 1])
    ensures SkipTrailing(s, lo, k) == n
  {
    if n < k {
      SkipTrailingAt(s, lo, n, k - 1);
    }
  }

  /** Whitespace around a string that neither starts nor ends with
      whitespace does not change its strip. */
  lemma StripPadded(a: string, t: string, b: string)
    requires AllSpace(a) && AllSpace(b)
    requires t != [] && !IsSpace(t[0]) && !IsSpace(t[|t| - 1])
    ensures Strip(a + t + b) == t
  {
    var s := a + t + b;
    var i, e := |a|, |a| + |t|;
    assert forall j :: 0 <= j < i ==> s[j] == a[j];
    assert forall j :: i <= j < e ==> s[j] == t[j - i];
    assert forall j :: e <= j < |s| ==> s[j] == b[j - e];
    SkipLeadingAt(s, 0, i);
    SkipTrailingAt(s, i, e, |s|);
    assert s[i..e] == t;
  }

  /** A string that neither starts nor ends with whitespace is its own strip. */
  lemma StripUnpadded(s: string)
    requires s != [] && !IsSpace(s[0]) && !IsSpace(s[|s| - 1])
    ensures Strip(s) == s
  {
    StripPadded([], s, []);
    assert [] + s + [] == s;
  }

  lemma StripIdempotent(s: string)
    ensures Strip(Strip(s)) == Strip(s)
  {
    StripSpec(s);
    if Strip(s) != [] {
      StripUnpadded(Strip(s));
    }
  }

  /** Python's `str.lower()` on ASCII letters; every other character is kept. */
  function LowerChar(c: char): char {
    if 'A' <= c <= 'Z' then (c as int + 32) as char else c
  }

  function Lower(s: string): string {
    seq(|s|, i requires 0 <= i < |s| => LowerChar(s[i]))
  }

  /** Python's `"\n".join(parts)`. */
  function JoinLines(parts: seq<string>): string {
    if |parts| == 0 then ""
    else if |parts| == 1 then parts[0]
    else parts[0] + "\n" + JoinLines(parts[1..])
  }

  /** Python's `s.split("\n")`: always at least one piece. */
  function SplitLines(s: string): (r: seq<string>)
    ensures |r| >= 1
  {
    if |s| == 0 then [""]
    else
      var rest := SplitLines(s[1..]);
      if s[0] == '\n' then [""] + rest else [[s[0]] + rest[0]] + rest[1..]
  }

  lemma {:induction false} SplitLinesPlain(s: string)
    requires '\n' !in s
    ensures SplitLines(s) == [s]
  {
    if |s| > 0 {
      assert '\n' !in s[1..] by { assert forall k :: 0 <= k < |s| - 1 ==> s[1..][k] == s[k + 1]; }
      SplitLinesPlain(s[1..]);
      assert [s[0]] + s[1..] == s;
    }
  }

  lemma {:induction false} SplitLinesCons(p: string, t: string)
    requires '\n' !in p
    ensures SplitLines(p + "\n" + t) == [p] + SplitLines(t)
  {
    if |p| == 0 {
      assert p + "\n" + t == "\n" + t;
      assert ("\n" + t)[1..] == t;
    } else {
      assert '\n' !in p[1..] by { assert forall k :: 0 <= k < |p| - 1 ==> p[1..][k] == p[k + 1]; }
      SplitLinesCons(p[1..], t);
      assert (p + "\n" + t)[1..] == p[1..] + "\n" + t;
      assert [p[0]] + p[1..] == p;
    }
  }

  /** Joining parts that contain no newline and splitting the result at
      newlines gives the parts back: the joined text loses nothing. */
  lemma {:induction false} SplitJoinLines(parts: seq<string>)
    requires |parts| >= 1
    requires forall k :: 0 <= k < |parts| ==> '\n' !in parts[k]
    ensures SplitLines(JoinLines(parts)) == parts
  {
    if |parts| == 1 {
      SplitLinesPlain(parts[0]);
    } else {
      SplitJoinLines(parts[1..]);
      SplitLinesCons(parts[0], JoinLines(parts[1..]));
      assert [parts[0]] + parts[1..] == parts;
    }
  }

  /** Python's `str(n)` for `n >= 0`: decimal digits, most significant first. */
  function DecimalOf(n: nat): (r: string)
    ensures |r| >= 1
    ensures forall k :: 0 <= k < |r| ==> '0' <= r[k] <= '9'
    ensures r[0] == '0' ==> n == 0
  {
    var d := ['0' + (n % 10) as char];
    if n < 10 then d else DecimalOf(n / 10) + d
  }

  /** Reads a string of decimal digits back as a number. */
  function ParseDecimal(s: string): nat
    requires forall k :: 0 <= k < |s| ==> '0' <= s[k] <= '9'
  {
    if |s| == 0 then 0
    else ParseDecimal(s[..|s| - 1]) * 10 + (s[|s| - 1] - '0') as nat
  }

  lemma {:induction false} ParseDecimalOf(n: nat)
    ensures ParseDecimal(DecimalOf(n)) == n
  {
    var s := DecimalOf(n);
    if n >= 10 {
      ParseDecimalOf(n / 10);
      assert s[..|s| - 1] == DecimalOf(n / 10);
    }
  }

  lemma DecimalOfInjective(m: nat, n: nat)
    requires DecimalOf(m) == DecimalOf(n)
    ensures m == n
  {
    ParseDecimalOf(m);
    ParseDecimalOf(n);
  }
}
