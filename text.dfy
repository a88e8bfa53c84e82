/**
 * String helpers used by the report formatter: `Array.prototype.join`,
 * the decimal rendering JavaScript gives an integral number inside a
 * template literal, and a notion of one string occurring inside another.
 */
module Text {

  /** `parts.join(sep)`: the parts with `sep` between neighbours. */
  function Join(parts: seq<string>, sep: string): string
  {
    if |parts| == 0 then ""
    else if |parts| == 1 then parts[0]
    else parts[0] + sep + Join(parts[1..], sep)
  }

  /** Joining one more part adds exactly one separator, at the end. */
  lemma {:induction false} JoinAppend(parts: seq<string>, sep: string, last: string)
    requires parts != []
    ensures Join(parts + [last], sep) == Join(parts, sep) + sep + last
  {
    if |parts| > 1 {
      assert (parts + [last])[1..] == parts[1..] + [last];
      JoinAppend(parts[1..], sep, last);
    } else {
      assert parts + [last] == [parts[0], last];
    }
  }

  /** `x` occurs in `s` starting at index `i`. */
  predicate OccursAt(x: string, s: string, i: int)
  {
    0 <= i <= |s| - |x| && s[i..i + |x|] == x
  }

  /** `x` occurs in `s` as a contiguous run of characters. */
  ghost predicate IsInfix(x: string, s: string)
  {
    exists i :: OccursAt(x, s, i)
  }

  lemma InfixOfItself(x: string)
    ensures IsInfix(x, x)
  {
    assert OccursAt(x, x, 0);
  }

  /** An infix of `s` stays an infix when text is added on either side. */
  lemma InfixOfConcat(x: string, pre: string, s: string, post: string)
    requires IsInfix(x, s)
    ensures IsInfix(x, pre + s + post)
  {
    var i :| OccursAt(x, s, i);
    var whole := pre + s + post;
    var j := |pre| + i;
    var inWhole, inS := whole[j..j + |x|], s[i..i + |x|];
    forall k | 0 <= k < |x|
      ensures inWhole[k] == inS[k]
    {
      assert whole[j + k] == s[i + k];
    }
    assert inWhole == inS;
    assert OccursAt(x, whole, j);
  }

  /** An infix of `s` is an infix of `s + t`. */
  lemma InfixLeft(x: string, s: string, t: string)
    requires IsInfix(x, s)
    ensures IsInfix(x, s + t)
  {
    InfixOfConcat(x, "", s, t);
    assert "" + s + t == s + t;
  }

  /** An infix of `t` is an infix of `s + t`. */
  lemma InfixRight(x: string, s: string, t: string)
    requires IsInfix(x, t)
    ensures IsInfix(x, s + t)
  {
    InfixOfConcat(x, s, t, "");
    assert s + t + "" == s + t;
  }

  /** A prefix of `b` stays a prefix, with the same characters, when text is added after `b`. */
  lemma PrefixExtends(a: string, b: string, c: string)
    requires |a| < |b| && b[..|a|] == a
    ensures (b + c)[..|a|] == a && (b + c)[|a|] == b[|a|]
  {
    assert (b + c)[..|a|] == b[..|a|];
  }

  /** A prefix of `b` followed by text stays a prefix of `a + b` after `a`. */
  lemma PrefixAfter(a: string, b: string, c: string)
    requires |c| <= |b| && b[..|c|] == c
    ensures |a + c| <= |a + b| && (a + b)[..|a + c|] == a + c
  {
    assert (a + b)[..|a + c|] == a + b[..|c|];
  }

  lemma InfixTransitive(x: string, y: string, s: string)
    requires IsInfix(x, y) && IsInfix(y, s)
    ensures IsInfix(x, s)
  {
    var i :| OccursAt(x, y, i);
    var j :| OccursAt(y, s, j);
    var inS, inY := s[j + i..j + i + |x|], y[i..i + |x|];
    forall k | 0 <= k < |x|
      ensures inS[k] == inY[k]
    {
      assert s[j..j + |y|][i + k] == y[i + k];
    }
    assert inS == inY;
    assert OccursAt(x, s, j + i);
  }

  /** Every part of a join occurs in the joined string. */
  lemma {:induction false} JoinContainsEach(parts: seq<string>, sep: string, k: nat)
    requires k < |parts|
    ensures IsInfix(parts[k], Join(parts, sep))
  {
    if |parts| == 1 {
      InfixOfItself(parts[0]);
    } else if k == 0 {
      InfixOfItself(parts[0]);
      InfixOfConcat(parts[0], "", parts[0], sep + Join(parts[1..], sep));
      assert "" + parts[0] + (sep + Join(parts[1..], sep)) == Join(parts, sep);
    } else {
      JoinContainsEach(parts[1..], sep, k - 1);
      InfixOfConcat(parts[k], parts[0] + sep, Join(parts[1..], sep), "");
      assert parts[0] + sep + Join(parts[1..], sep) + "" == Join(parts, sep);
    }
  }

  predicate IsDigit(c: char)
  {
    '0' <= c <= '9'
  }

  predicate AllDigits(s: string)
  {
    forall i :: 0 <= i < |s| ==> IsDigit(s[i])
  }

  function DigitChar(d: nat): (c: char)
    requires d < 10
    ensures IsDigit(c) && c as int - '0' as int == d
  {
    ('0' as int + d) as char
  }

  /**
   * The decimal digits of `n` with no leading zero, which is how a
   * template literal renders a non-negative integral number.
   */
  function NatToString(n: nat): (s: string)
    ensures |s| > 0 && AllDigits(s)
    ensures s[0] == '0' ==> n == 0
    decreases n
  {
    if n < 10 then [DigitChar(n)] else NatToString(n / 10) + [DigitChar(n % 10)]
  }

  /** The value of a string of decimal digits. */
  function ParseNat(s: string): nat
    requires AllDigits(s)
  {
    if s == [] then 0 else ParseNat(s[..|s| - 1]) * 10 + (s[|s| - 1] as int - '0' as int)
  }

  /** Reading the rendered digits back gives the number. */
  lemma {:induction false} ParseNatToString(n: nat)
    ensures ParseNat(NatToString(n)) == n
    decreases n
  {
    var s := NatToString(n);
    if n >= 10 {
      ParseNatToString(n / 10);
      assert s[..|s| - 1] == NatToString(n / 10);
    }
  }

  /** `String(k)` for an integral number `k`: a minus sign before negatives. */
  function IntToString(k: int): (s: string)
    ensures |s| > 0
    ensures s[0] == '-' <==> k < 0
  {
    if k < 0 then "-" + NatToString(-k) else NatToString(k)
  }

  /** Inverse of IntToString. */
  function ParseInt(s: string): int
  {
    if |s| > 0 && s[0] == '-' && AllDigits(s[1..]) then -(ParseNat(s[1..]) as int)
    else if AllDigits(s) then ParseNat(s)
    else 0
  }

  lemma ParseIntToString(k: int)
    ensures ParseInt(IntToString(k)) == k
  {
    if k < 0 {
      ParseNatToString(-k);
      assert IntToString(k)[1..] == NatToString(-k);
    } else {
      ParseNatToString(k);
    }
  }
}
