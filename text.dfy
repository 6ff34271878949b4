/**
 * The text primitives the application relies on: decimal formatting of Java
 * `int` values (`String.format("%d", …)`, `StringBuilder.append(int)`), the
 * `String.trim()` of a typed name, and the splitting and parsing that reads
 * such text back.
 */
module Text {
  import opened Wrappers

  predicate IsDigit(c: char) { '0' <= c <= '9' }

  predicate IsDigits(s: string) { forall i :: 0 <= i < |s| ==> IsDigit(s[i]) }

  function DigitChar(d: nat): (c: char)
    requires d < 10
    ensures IsDigit(c)
  {
    ('0' as int + d) as char
  }

  function DigitValue(c: char): (d: nat)
    requires IsDigit(c)
    ensures d < 10 && DigitChar(d) == c
  {
    c as int - '0' as int
  }

  /** Decimal digits of `n`, most significant first, without leading zeros. */
  function NatText(n: nat): (s: string)
    ensures |s| >= 1 && IsDigits(s)
  {
    if n < 10 then [DigitChar(n)] else NatText(n / 10) + [DigitChar(n % 10)]
  }

  /** The value of a string of decimal digits. */
  function ParseNat(s: string): nat
    requires IsDigits(s)
  {
    if s == [] then 0 else ParseNat(s[..|s| - 1]) * 10 + DigitValue(s[|s| - 1])
  }

  lemma {:induction false} ParseNatText(n: nat)
    ensures ParseNat(NatText(n)) == n
  {
    if n >= 10 {
      var s := NatText(n);
      assert s[..|s| - 1] == NatText(n / 10);
      ParseNatText(n / 10);
    }
  }

  /** A decimal numeral as `%d` prints it: digits, with a leading '-' when negative. */
  predicate IsNumeral(s: string)
  {
    (|s| >= 1 && IsDigits(s)) || (|s| >= 2 && s[0] == '-' && IsDigits(s[1..]))
  }

  /** `String.format("%d", i)`: the decimal text of `i`. */
  function IntText(i: int): (s: string)
    ensures IsNumeral(s)
  {
    if i < 0 then "-" + NatText(-i) else NatText(i)
  }

  /** Reads back a numeral; anything else is rejected. */
  function ParseInt(s: string): (r: Option<int>)
    ensures r.Some? <==> IsNumeral(s)
  {
    if |s| >= 2 && s[0] == '-' && IsDigits(s[1..]) then Some(-(ParseNat(s[1..]) as int))
    else if |s| >= 1 && IsDigits(s) then Some(ParseNat(s))
    else None
  }

  lemma ParseDigits(t: string)
    requires |t| >= 1 && IsDigits(t)
    ensures ParseInt(t) == Some(ParseNat(t) as int)
  {
    assert IsDigit(t[0]);
  }

  lemma ParseMinusDigits(t: string)
    requires |t| >= 1 && IsDigits(t)
    ensures ParseInt(['-'] + t) == Some(-(ParseNat(t) as int))
  {
    assert (['-'] + t)[1..] == t;
  }

  lemma ParseNegativeText(n: nat)
    requires n > 0
    ensures ParseInt(IntText(-(n as int))) == Some(-(n as int))
  {
    var t := NatText(n);
    assert IntText(-(n as int)) == ['-'] + t;
    ParseMinusDigits(t);
    ParseNatText(n);
  }

  lemma ParseNonNegativeText(n: nat)
    ensures ParseInt(IntText(n)) == Some(n)
  {
    var t := NatText(n);
    ParseDigits(t);
    ParseNatText(n);
  }

  lemma ParseIntText(i: int)
    ensures ParseInt(IntText(i)) == Some(i)
  {
    if i < 0 {
      ParseNegativeText(-i);
    } else {
      ParseNonNegativeText(i);
    }
  }

  /** A numeral holds only digits and '-', so no separator used around it can occur in it. */
  lemma NumeralAvoids(s: string, c: char)
    requires IsNumeral(s) && !IsDigit(c) && c != '-'
    ensures c !in s
  {
    if |s| >= 2 && s[0] == '-' && IsDigits(s[1..]) {
      assert forall i :: 1 <= i < |s| ==> s[i] == s[1..][i - 1];
    }
  }

  /**
   * Splits `s` at the first occurrence of `c`: the part before it and the part
   * after it; `None` when `c` does not occur.
   */
  function SplitAt(s: string, c: char): (r: Option<(string, string)>)
    ensures r.None? <==> c !in s
    ensures r.Some? ==> s == r.value.0 + [c] + r.value.1 && c !in r.value.0
  {
    if s == [] then None
    else if s[0] == c then Some(([], s[1..]))
    else match SplitAt(s[1..], c)
      case None => None
      case Some((a, b)) => Some(([s[0]] + a, b))
  }

  /** Splitting a text built around its first `c` gives back the two pieces it was built from. */
  lemma SplitAtFirst(a: string, c: char, b: string)
    requires c !in a
    ensures SplitAt(a + [c] + b, c) == Some((a, b))
  {
    var s := a + [c] + b;
    assert s[|a|] == c;
    var r := SplitAt(s, c);
    var a', b' := r.value.0, r.value.1;
    assert s[|a'|] == c;
    assert forall k :: 0 <= k < |a'| ==> s[k] == a'[k] != c;
    assert forall k :: 0 <= k < |a| ==> s[k] == a[k] != c;
    assert a' == s[..|a|] == a;
    assert b' == s[|a| + 1..] == b;
  }

  /** Number of occurrences of `c` in `s`. */
  function Count(s: string, c: char): nat
  {
    if s == [] then 0 else (if s[0] == c then 1 else 0) + Count(s[1..], c)
  }

  lemma {:induction false} CountConcat(s: string, t: string, c: char)
    ensures Count(s + t, c) == Count(s, c) + Count(t, c)
  {
    if s != [] {
      assert (s + t)[1..] == s[1..] + t;
      CountConcat(s[1..], t, c);
    } else {
      assert s + t == t;
    }
  }

  lemma {:induction false} CountAbsent(s: string, c: char)
    requires c !in s
    ensures Count(s, c) == 0
  {
    if s != [] {
      CountAbsent(s[1..], c);
    }
  }

  /** What `String.trim()` removes: every character whose code is at most U+0020. */
  predicate IsBlank(c: char) { c <= ' ' }

  /** Number of blank characters at the start of `s`. */
  function LeadingBlanks(s: string): (k: nat)
    ensures k <= |s|
    ensures forall i :: 0 <= i < k ==> IsBlank(s[i])
    ensures k < |s| ==> !IsBlank(s[k])
  {
    if s == [] || !IsBlank(s[0]) then 0 else 1 + LeadingBlanks(s[1..])
  }

  /** Number of blank characters at the end of `s`. */
  function TrailingBlanks(s: string): (k: nat)
    ensures k <= |s|
    ensures forall i :: |s| - k <= i < |s| ==> IsBlank(s[i])
    ensures k < |s| ==> !IsBlank(s[|s| - 1 - k])
  {
    if s == [] || !IsBlank(s[|s| - 1]) then 0 else 1 + TrailingBlanks(s[..|s| - 1])
  }

  /**
   * `String.trim()`: the infix of `s` left after removing the blanks at both
   * ends; empty exactly when `s` is all blanks.
   */
  function Trim(s: string): (r: string)
    ensures r == [] <==> forall i :: 0 <= i < |s| ==> IsBlank(s[i])
    ensures r != [] ==> !IsBlank(r[0]) && !IsBlank(r[|r| - 1])
    ensures LeadingBlanks(s) + |r| <= |s| && r == s[LeadingBlanks(s)..LeadingBlanks(s) + |r|]
    ensures forall i :: LeadingBlanks(s) + |r| <= i < |s| ==> IsBlank(s[i])
  {
    var rest := s[LeadingBlanks(s)..];
    rest[..|rest| - TrailingBlanks(rest)]
  }

  /** Trimming twice is trimming once. */
  lemma TrimIdempotent(s: string)
    ensures Trim(Trim(s)) == Trim(s)
  {
    var r := Trim(s);
    if r != [] {
      assert LeadingBlanks(r) == 0;
      var rest := r[LeadingBlanks(r)..];
      assert rest == r;
      assert TrailingBlanks(rest) == 0;
    }
  }
}
