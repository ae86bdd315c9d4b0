/** Strings as the sources use them: `str.replace`, decimal printing, NUL counting. */
module Text {

  datatype Option<+T> = None | Some(value: T)

  datatype Result<+T, +E> = Success(value: T) | Failure(error: E)

  const NUL: char := '\0'
  const QUOTE: char := '\''

  /** Python's `s.replace(pat, rep)`: leftmost, non-overlapping occurrences. */
  function ReplaceAll(s: string, pat: string, rep: string): string
    requires pat != ""
    decreases |s|
  {
    if s == "" then ""
    else if pat <= s then rep + ReplaceAll(s[|pat|..], pat, rep)
    else [s[0]] + ReplaceAll(s[1..], pat, rep)
  }

  lemma PrefixUpTo(u: string, c: char, v: string, pat: string)
    requires c !in pat
    ensures pat <= u + [c] + v <==> pat <= u
  {
    var s := u + [c] + v;
    assert s[|u|] == c;
    assert forall k :: 0 <= k < |pat| ==> pat[k] in pat;
    assert forall k :: 0 <= k < |u| ==> s[k] == u[k];
  }

  /** A character outside the pattern cuts the replacement in two. */
  lemma {:induction false} ReplaceSplit(u: string, c: char, v: string, pat: string, rep: string)
    requires pat != "" && c !in pat
    ensures ReplaceAll(u + [c] + v, pat, rep) == ReplaceAll(u, pat, rep) + [c] + ReplaceAll(v, pat, rep)
    decreases |u|
  {
    var s := u + [c] + v;
    PrefixUpTo(u, c, v, pat);
    if u == "" {
      assert s[1..] == v;
    } else if pat <= s {
      assert s[|pat|..] == u[|pat|..] + [c] + v;
      ReplaceSplit(u[|pat|..], c, v, pat, rep);
    } else {
      assert s[1..] == u[1..] + [c] + v;
      ReplaceSplit(u[1..], c, v, pat, rep);
    }
  }

  lemma Regroup(a: string, b: string, c: string)
    ensures a + (b + c) == (a + b) + c
  {
  }

  lemma PrefixCons(a: string, b: string)
    requires a != "" && b != ""
    ensures a <= b <==> a[0] == b[0] && a[1..] <= b[1..]
  {
  }

  /** Characters that cannot open the pattern are copied. */
  lemma {:induction false} ReplaceSkip(u: string, v: string, pat: string, rep: string)
    requires pat != "" && pat[0] !in u
    ensures ReplaceAll(u + v, pat, rep) == u + ReplaceAll(v, pat, rep)
  {
    if u == "" {
      assert u + v == v;
    } else {
      var s := u + v;
      assert s[0] == u[0] && u[0] in u;
      assert s[1..] == u[1..] + v;
      ReplaceSkip(u[1..], v, pat, rep);
      assert u == [u[0]] + u[1..];
    }
  }

  lemma ReplaceHit(v: string, pat: string, rep: string)
    requires pat != ""
    ensures ReplaceAll(pat + v, pat, rep) == rep + ReplaceAll(v, pat, rep)
  {
  }

  /** Is the number of NULs odd? */
  predicate OddNuls(s: string) { s != "" && ((s[0] == NUL) != OddNuls(s[1..])) }

  lemma {:induction false} OddNulsAppend(a: string, b: string)
    ensures OddNuls(a + b) <==> (OddNuls(a) != OddNuls(b))
  {
    if a == "" {
      assert a + b == b;
    } else {
      assert (a + b)[1..] == a[1..] + b;
      OddNulsAppend(a[1..], b);
    }
  }

  lemma {:induction false} NoNulIsEven(s: string)
    requires NUL !in s
    ensures !OddNuls(s)
  {
    if s == "" {
    } else {
      assert s[0] in s;
      NoNulIsEven(s[1..]);
    }
  }

  /** A replacement that trades an even number of NULs keeps their parity. */
  lemma {:induction false} ReplaceKeepsParity(s: string, pat: string, rep: string)
    requires pat != "" && !OddNuls(pat) && !OddNuls(rep)
    ensures OddNuls(ReplaceAll(s, pat, rep)) <==> OddNuls(s)
    decreases |s|
  {
    if s == "" {
    } else if pat <= s {
      var rest := s[|pat|..];
      assert s == pat + rest;
      OddNulsAppend(pat, rest);
      OddNulsAppend(rep, ReplaceAll(rest, pat, rep));
      ReplaceKeepsParity(rest, pat, rep);
    } else {
      assert s == [s[0]] + s[1..];
      OddNulsAppend([s[0]], s[1..]);
      OddNulsAppend([s[0]], ReplaceAll(s[1..], pat, rep));
      ReplaceKeepsParity(s[1..], pat, rep);
    }
  }

  function Digit(d: nat): (c: char)
    requires d < 10
    ensures '0' <= c <= '9' && c as int - '0' as int == d
  {
    ('0' as int + d) as char
  }

  predicate IsDigit(c: char) { '0' <= c <= '9' }

  function DigitValue(c: char): (d: nat)
    requires IsDigit(c)
    ensures d < 10 && Digit(d) == c
  {
    c as int - '0' as int
  }

  /** `str(n)` for a natural number. */
  function Dec(n: nat): (s: string)
    ensures s != "" && forall c :: c in s ==> IsDigit(c)
  {
    if n < 10 then [Digit(n)] else Dec(n / 10) + [Digit(n % 10)]
  }

  /** `int(s)` for a text of digits. */
  function Value(s: string): nat
    requires forall c :: c in s ==> IsDigit(c)
  {
    if s == "" then 0 else 10 * Value(s[..|s| - 1]) + DigitValue(s[|s| - 1])
  }

  lemma {:induction false} ValueOfDec(n: nat)
    ensures Value(Dec(n)) == n
  {
    var s := Dec(n);
    if n < 10 {
      assert s[..0] == "";
    } else {
      assert s[..|s| - 1] == Dec(n / 10);
      ValueOfDec(n / 10);
    }
  }

  /** Distinct numbers print differently. */
  lemma DecInjective(m: nat, n: nat)
    requires Dec(m) == Dec(n)
    ensures m == n
  {
    ValueOfDec(m);
    ValueOfDec(n);
  }
}
