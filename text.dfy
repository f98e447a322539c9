/**
  The pieces of java.lang.String and java.lang.Integer that the CSV codecs of
  the payroll models rely on: single-character `split` (with and without a
  limit), character `replace`, `%d` formatting and `Integer.parseInt`.
  Strings are sequences of UTF-16 code units; every delimiter here is ASCII.
*/
module Text {
  import opened Wrappers

  predicate IsDigit(c: char) {
    '0' <= c <= '9'
  }

  predicate AllDigits(s: string) {
    forall i :: 0 <= i < |s| ==> IsDigit(s[i])
  }

  function DigitChar(n: int): (c: char)
    requires 0 <= n < 10
    ensures IsDigit(c) && DigitValue(c) == n
  {
    (48 + n) as char
  }

  function DigitValue(c: char): (n: int)
    requires IsDigit(c)
    ensures 0 <= n < 10
  {
    c as int - 48
  }

  // ---------------------------------------------------------------------
  // Decimal numerals

  /** Shortest decimal numeral of `n`, as `Integer.toString` writes a non-negative int. */
  function NatToString(n: nat): (s: string)
    ensures 1 <= |s| && AllDigits(s)
    ensures n < 10 <==> |s| == 1
    decreases n
  {
    if n < 10 then [DigitChar(n)] else NatToString(n / 10) + [DigitChar(n % 10)]
  }

  /** Value of a string of decimal digits, leading zeros allowed. */
  function DigitsValue(s: string): (n: nat)
    requires AllDigits(s)
    decreases |s|
  {
    if s == [] then 0 else 10 * DigitsValue(s[..|s| - 1]) + DigitValue(s[|s| - 1])
  }

  lemma {:induction false} DigitsValueOfNatToString(n: nat)
    ensures DigitsValue(NatToString(n)) == n
    decreases n
  {
    if n >= 10 {
      var s := NatToString(n);
      assert s[..|s| - 1] == NatToString(n / 10);
      DigitsValueOfNatToString(n / 10);
    }
  }

  lemma {:induction false} DigitsValueLeadingZero(s: string)
    requires AllDigits(s)
    ensures AllDigits("0" + s) && DigitsValue("0" + s) == DigitsValue(s)
    decreases |s|
  {
    if s != [] {
      var t := "0" + s;
      assert t[..|t| - 1] == "0" + s[..|s| - 1];
      DigitsValueLeadingZero(s[..|s| - 1]);
    }
  }

  /** `s` preceded by as many '0' as it takes to reach `width` characters. */
  function ZeroPad(s: string, width: nat): (r: string)
    requires AllDigits(s)
    ensures |r| == if |s| < width then width else |s|
    ensures AllDigits(r) && DigitsValue(r) == DigitsValue(s)
    decreases width - |s|
  {
    if |s| < width then
      DigitsValueLeadingZero(s);
      ZeroPad("0" + s, width)
    else s
  }

  /** `String.format("%d", i)`: a minus sign for negative values, then the digits. */
  function IntToString(i: int): (s: string)
    ensures 1 <= |s|
  {
    if i < 0 then "-" + NatToString(-i) else NatToString(i)
  }

  /** A written integer holds only digits and perhaps a leading minus sign. */
  lemma IntToStringHasNoComma(i: int)
    ensures ',' !in IntToString(i)
  {
    var s := IntToString(i);
    if i < 0 {
      assert forall k :: 1 <= k < |s| ==> s[k] == NatToString(-i)[k - 1];
    }
  }

  /**
    `Integer.parseInt`: an optional '+' or '-' followed by at least one
    decimal digit. None stands for the NumberFormatException the source
    would throw; the 32-bit range check is not modelled.
  */
  function ParseInt(s: string): (r: Option<int>)
    ensures r.Some? ==> 1 <= |s|
  {
    if s == [] then None
    else if s[0] == '-' || s[0] == '+' then
      var digits := s[1..];
      if digits != [] && AllDigits(digits) then
        var magnitude: int := DigitsValue(digits);
        Some(if s[0] == '-' then -magnitude else magnitude)
      else None
    else if AllDigits(s) then Some(DigitsValue(s))
    else None
  }

  lemma ParseIntToString(i: int)
    ensures ParseInt(IntToString(i)) == Some(i)
  {
    if i < 0 {
      ParseNegative(i);
    } else {
      ParseNonNegative(i);
    }
  }

  lemma ParseNegative(i: int)
    requires i < 0
    ensures ParseInt("-" + NatToString(-i)) == Some(i)
  {
    var s := "-" + NatToString(-i);
    assert s[0] == '-' && s[1..] == NatToString(-i);
    DigitsValueOfNatToString(-i);
  }

  lemma ParseNonNegative(n: nat)
    ensures ParseInt(NatToString(n)) == Some(n)
  {
    var s := NatToString(n);
    assert IsDigit(s[0]);
    DigitsValueOfNatToString(n);
  }

  // ---------------------------------------------------------------------
  // Searching and splitting on one delimiter character

  /** `String.indexOf(c)`: the first position of `c`, or -1. */
  function IndexOf(s: string, c: char): (i: int)
    ensures -1 <= i < |s|
    ensures i == -1 ==> c !in s
    ensures 0 <= i ==> s[i] == c && c !in s[..i]
    decreases |s|
  {
    if s == [] then -1
    else if s[0] == c then 0
    else
      var j := IndexOf(s[1..], c);
      if j == -1 then -1
      else
        assert s[..j + 1] == [s[0]] + s[1..][..j];
        j + 1
  }

  lemma IndexOfAfterPrefix(p: string, c: char, rest: string)
    requires c !in p
    ensures IndexOf(p + [c] + rest, c) == |p|
  {
    var s := p + [c] + rest;
    var i := IndexOf(s, c);
    assert s[|p|] == c;
  }

  /** Every piece between occurrences of `c`, empty pieces included. */
  function SplitAll(s: string, c: char): (parts: seq<string>)
    ensures 1 <= |parts|
    ensures forall k :: 0 <= k < |parts| ==> c !in parts[k]
    decreases |s|
  {
    var i := IndexOf(s, c);
    if i < 0 then [s] else [s[..i]] + SplitAll(s[i + 1..], c)
  }

  /** The pieces joined back together with `c` between them. */
  function Join(parts: seq<string>, c: char): string
    requires 1 <= |parts|
    decreases |parts|
  {
    if |parts| == 1 then parts[0] else parts[0] + [c] + Join(parts[1..], c)
  }

  lemma {:induction false} SplitAllJoin(parts: seq<string>, c: char)
    requires 1 <= |parts|
    requires forall k :: 0 <= k < |parts| ==> c !in parts[k]
    ensures SplitAll(Join(parts, c), c) == parts
    decreases |parts|
  {
    if |parts| > 1 {
      var rest := Join(parts[1..], c);
      IndexOfAfterPrefix(parts[0], c, rest);
      var s := parts[0] + [c] + rest;
      assert s[..|parts[0]|] == parts[0];
      assert s[|parts[0]| + 1..] == rest;
      SplitAllJoin(parts[1..], c);
    }
  }

  /** The list without its trailing empty strings. */
  function DropTrailingEmpty(parts: seq<string>): (r: seq<string>)
    ensures |r| <= |parts| && r == parts[..|r|]
    ensures r != [] ==> r[|r| - 1] != ""
    ensures forall k :: |r| <= k < |parts| ==> parts[k] == ""
    decreases |parts|
  {
    if parts == [] || parts[|parts| - 1] != "" then parts
    else DropTrailingEmpty(parts[..|parts| - 1])
  }

  /**
    `s.split(",")` (limit 0) for a one-character delimiter: a string without
    the delimiter comes back whole, even when empty; otherwise the pieces
    with trailing empty pieces removed.
  */
  function Split(s: string, c: char): (parts: seq<string>)
    ensures forall k :: 0 <= k < |parts| ==> c !in parts[k]
  {
    if c !in s then [s] else DropTrailingEmpty(SplitAll(s, c))
  }

  lemma SplitJoin(parts: seq<string>, c: char)
    requires 2 <= |parts| && parts[|parts| - 1] != ""
    requires forall k :: 0 <= k < |parts| ==> c !in parts[k]
    ensures Split(Join(parts, c), c) == parts
  {
    var s := Join(parts, c);
    assert s == parts[0] + [c] + Join(parts[1..], c);
    assert s[|parts[0]|] == c;
    SplitAllJoin(parts, c);
  }

  /**
    `s.split(",", limit)` for limit >= 1: at most `limit` pieces, the last
    one holding everything after the (limit-1)-th delimiter.
  */
  function SplitLimit(s: string, c: char, limit: nat): (parts: seq<string>)
    requires 1 <= limit
    ensures 1 <= |parts| <= limit
    decreases limit
  {
    var i := IndexOf(s, c);
    if limit == 1 || i < 0 then [s] else [s[..i]] + SplitLimit(s[i + 1..], c, limit - 1)
  }

  /** A piece without the delimiter, then the delimiter: the first limited piece is that piece. */
  lemma SplitLimitStep(p: string, c: char, rest: string, limit: nat)
    requires c !in p && 2 <= limit
    ensures SplitLimit(p + [c] + rest, c, limit) == [p] + SplitLimit(rest, c, limit - 1)
  {
    var s := p + [c] + rest;
    IndexOfAfterPrefix(p, c, rest);
    assert s[..|p|] == p;
    assert s[|p| + 1..] == rest;
  }

  /** Putting one more delimiter-free piece in front of a line that splits back. */
  lemma SplitLimitCons(p: string, c: char, rest: string, tail: seq<string>, limit: nat)
    requires c !in p && 2 <= limit
    requires SplitLimit(rest, c, limit - 1) == tail
    ensures SplitLimit(p + [c] + rest, c, limit) == [p] + tail
  {
    SplitLimitStep(p, c, rest, limit);
  }

  /** A join of two or more pieces is the first piece, the delimiter, then the join of the rest. */
  lemma JoinCons(parts: seq<string>, c: char)
    requires 2 <= |parts|
    ensures Join(parts, c) == parts[0] + [c] + Join(parts[1..], c)
  {
  }

  lemma HeadTail(parts: seq<string>)
    requires 1 <= |parts|
    ensures [parts[0]] + parts[1..] == parts
  {
  }

  lemma {:induction false} SplitLimitJoin(parts: seq<string>, c: char)
    requires 1 <= |parts|
    requires forall k :: 0 <= k < |parts| - 1 ==> c !in parts[k]
    ensures SplitLimit(Join(parts, c), c, |parts|) == parts
    decreases |parts|
  {
    if |parts| == 1 {
      assert Join(parts, c) == parts[0];
      assert [parts[0]] == parts;
    } else {
      var tail := parts[1..];
      assert forall k :: 0 <= k < |tail| - 1 ==> c !in tail[k] by {
        forall k | 0 <= k < |tail| - 1
          ensures c !in tail[k]
        {
          assert tail[k] == parts[k + 1];
        }
      }
      SplitLimitJoin(tail, c);
      JoinCons(parts, c);
      SplitLimitCons(parts[0], c, Join(tail, c), tail, |parts|);
      HeadTail(parts);
    }
  }

  // ---------------------------------------------------------------------
  // Character replacement

  /** `s.replace(from, to)` for one-character strings: every occurrence is replaced. */
  function Replace(s: string, from: char, to: char): (r: string)
    ensures |r| == |s|
    ensures forall k :: 0 <= k < |s| ==> r[k] == if s[k] == from then to else s[k]
  {
    seq(|s|, k requires 0 <= k < |s| => if s[k] == from then to else s[k])
  }

  /**
    Replacing `a` by `b` and then `b` by `a` gives the string back exactly
    when `b` did not occur in it.
  */
  lemma ReplaceBack(s: string, a: char, b: char)
    requires a != b
    ensures Replace(Replace(s, a, b), b, a) == s <==> b !in s
  {
    var r := Replace(Replace(s, a, b), b, a);
    if b in s {
      var k :| 0 <= k < |s| && s[k] == b;
      assert r[k] == a;
    } else {
      assert forall k :: 0 <= k < |s| ==> r[k] == s[k];
    }
  }
}
