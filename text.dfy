/** String helpers shared by the models of the generator back end and of the
    trace scripts: Python's `''.join`, the `in` test on strings, C++
    `to_string` / Python `str` on naturals and Python `int()` on decimal text. */
module Text {
  import opened Maybe

  /** `''.join(ws)`: the words concatenated in order. */
  function Concat(ws: seq<string>): string
  {
    if ws == [] then "" else ws[0] + Concat(ws[1..])
  }

  lemma {:induction false} ConcatAppend(ws: seq<string>, w: string)
    ensures Concat(ws + [w]) == Concat(ws) + w
  {
    if ws == [] {
      assert ws + [w] == [w];
    } else {
      assert (ws + [w])[1..] == ws[1..] + [w];
      ConcatAppend(ws[1..], w);
    }
  }

  /** Sequence concatenation is associative. */
  lemma AppendAssoc<T>(a: seq<T>, b: seq<T>, c: seq<T>)
    ensures a + b + c == a + (b + c)
  {
  }

  /** A prefix one element longer. */
  lemma PrefixExtend<T>(s: seq<T>, n: nat)
    requires n < |s|
    ensures s[..n + 1] == s[..n] + [s[n]]
  {
  }

  /** A slice one element longer. */
  lemma SliceSnoc<T>(s: seq<T>, a: nat, b: nat)
    requires a <= b < |s|
    ensures s[a..b + 1] == s[a..b] + [s[b]]
  {
  }

  /** Python's `pat in s` on strings. */
  predicate Contains(s: string, pat: string)
    decreases |s|
  {
    |pat| <= |s| && (s[..|pat|] == pat || Contains(s[1..], pat))
  }

  /** An occurrence of `pat` at any offset makes `Contains` true. */
  lemma {:induction false} ContainsAt(s: string, pat: string, i: nat)
    requires i + |pat| <= |s| && s[i..i + |pat|] == pat
    ensures Contains(s, pat)
    decreases i
  {
    if i > 0 {
      assert s[1..][i - 1..i - 1 + |pat|] == s[i..i + |pat|];
      ContainsAt(s[1..], pat, i - 1);
    }
  }

  /** A hit of `Contains` is an occurrence at some offset. */
  lemma {:induction false} ContainsWitness(s: string, pat: string) returns (i: nat)
    requires Contains(s, pat)
    ensures i + |pat| <= |s| && s[i..i + |pat|] == pat
    decreases |s|
  {
    if s[..|pat|] == pat {
      i := 0;
    } else {
      var j := ContainsWitness(s[1..], pat);
      assert s[1..][j..j + |pat|] == s[j + 1..j + 1 + |pat|];
      i := j + 1;
    }
  }

  /** An occurrence of `pat` in `a + [c] + b`, where `c` is no character of
      `pat`, lies within `a` or within `b`. */
  lemma ContainsSplit(a: string, c: char, b: string, pat: string)
    requires c !in pat
    ensures Contains(a + [c] + b, pat) ==> Contains(a, pat) || Contains(b, pat)
  {
    var s := a + [c] + b;
    if Contains(s, pat) {
      var i := ContainsWitness(s, pat);
      if i + |pat| <= |a| {
        assert a[i..i + |pat|] == s[i..i + |pat|];
        ContainsAt(a, pat, i);
      } else if i > |a| {
        assert b[i - |a| - 1..i - |a| - 1 + |pat|] == s[i..i + |pat|];
        ContainsAt(b, pat, i - |a| - 1);
      } else {
        StraddleHasChar(a, c, b, pat, i);
        assert false;
      }
    }
  }

  /** An occurrence of `pat` that spans the character `c` between `a` and
      `b` holds `c`. */
  lemma StraddleHasChar(a: string, c: char, b: string, pat: string, i: nat)
    requires i <= |a| < i + |pat| <= |a| + 1 + |b|
    requires (a + [c] + b)[i..i + |pat|] == pat
    ensures c in pat
  {
    assert pat[|a| - i] == c;
  }

  /** A string without the first character of `pat` does not contain it. */
  lemma ContainsFirst(s: string, pat: string)
    requires |pat| > 0 && pat[0] !in s
    ensures !Contains(s, pat)
  {
    if Contains(s, pat) {
      var i := ContainsWitness(s, pat);
      assert false;
    }
  }

  /** A word without a space character. */
  predicate NoSpace(w: string)
  {
    forall k :: 0 <= k < |w| ==> w[k] != ' '
  }

  predicate IsDigit(c: char)
  {
    '0' as int <= c as int <= '9' as int
  }

  function DigitChar(d: nat): (c: char)
    requires d < 10
    ensures IsDigit(c) && c as int - '0' as int == d
  {
    ('0' as int + d) as char
  }

  /** Decimal text of a natural without leading zeros: C++ `to_string` and
      Python `str` on a non-negative integer. */
  function DecimalString(n: nat): (r: string)
    ensures |r| >= 1
    ensures forall k :: 0 <= k < |r| ==> IsDigit(r[k])
    ensures n < 10 <==> |r| == 1
  {
    if n < 10 then [DigitChar(n)] else DecimalString(n / 10) + [DigitChar(n % 10)]
  }

  /** Value of a nonempty string of decimal digits. */
  function DigitsValue(s: string): nat
    requires |s| >= 1 && forall k :: 0 <= k < |s| ==> IsDigit(s[k])
  {
    assert IsDigit(s[|s| - 1]);
    var d := s[|s| - 1] as int - '0' as int;
    if |s| == 1 then d else 10 * DigitsValue(s[..|s| - 1]) + d
  }

  /** Python's `int()` on a word that holds no white space: an optional sign
      followed by at least one decimal digit; anything else raises, which is
      `None` here. */
  function ParseInt(s: string): Option<int>
  {
    if |s| >= 1 && (s[0] == '-' || s[0] == '+') then
      var body := s[1..];
      if |body| >= 1 && forall k :: 0 <= k < |body| ==> IsDigit(body[k]) then
        var v: int := DigitsValue(body);
        Some(if s[0] == '-' then -v else v)
      else None
    else if |s| >= 1 && forall k :: 0 <= k < |s| ==> IsDigit(s[k]) then
      Some(DigitsValue(s))
    else None
  }

  /** `int(str(n)) == n`. */
  lemma {:induction false} DigitsValueOfDecimal(n: nat)
    ensures DigitsValue(DecimalString(n)) == n
  {
    if n >= 10 {
      var s := DecimalString(n);
      assert s[..|s| - 1] == DecimalString(n / 10);
      DigitsValueOfDecimal(n / 10);
    }
  }

  lemma ParseIntOfDecimal(n: nat)
    ensures ParseInt(DecimalString(n)) == Some(n)
  {
    DigitsValueOfDecimal(n);
  }

  /** `str` is injective on naturals. */
  lemma DecimalStringInjective(m: nat, n: nat)
    requires DecimalString(m) == DecimalString(n)
    ensures m == n
  {
    DigitsValueOfDecimal(m);
    DigitsValueOfDecimal(n);
  }
}
