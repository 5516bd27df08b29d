/**
 * The string operations the service relies on: rendering integers in template strings
 * (JavaScript's decimal form, which integers of magnitude below 10^21 take), reading a decimal
 * number back, and `Array.prototype.join`.
 */
module Text {

  predicate IsDigit(c: char) {
    '0' <= c <= '9'
  }

  predicate AllDigits(s: string) {
    forall i :: 0 <= i < |s| ==> IsDigit(s[i])
  }

  function DigitChar(d: nat): (c: char)
    requires d < 10
    ensures IsDigit(c) && c as int - '0' as int == d
  {
    ('0' as int + d) as char
  }

  function DigitValue(c: char): (d: nat)
    requires IsDigit(c)
    ensures d < 10 && DigitChar(d) == c
  {
    c as int - '0' as int
  }

  /** Decimal text of a non-negative integer: digits only, at least one, no leading zero. */
  function NatToString(n: nat): (s: string)
    ensures |s| >= 1 && AllDigits(s)
    ensures |s| > 1 ==> s[0] != '0'
    decreases n
  {
    if n < 10 then [DigitChar(n)] else NatToString(n / 10) + [DigitChar(n % 10)]
  }

  /** Decimal text of an integer, with a leading minus sign when negative. */
  function IntToString(i: int): (s: string)
    ensures |s| >= 1
    ensures (i < 0) <==> s[0] == '-'
    ensures i >= 0 ==> s == NatToString(i) && ParseNat(s) == i
    ensures i < 0 ==> s == "-" + NatToString(-i) && ParseNat(s[1..]) == -i
  {
    if i < 0 then
      ParseNatToString(-i);
      assert ("-" + NatToString(-i))[1..] == NatToString(-i);
      "-" + NatToString(-i)
    else
      ParseNatToString(i);
      NatToString(i)
  }

  /** The value of a string of decimal digits. */
  function ParseNat(s: string): nat
    requires AllDigits(s)
  {
    if s == [] then 0 else ParseNat(s[..|s| - 1]) * 10 + DigitValue(s[|s| - 1])
  }

  /** Reading back the decimal text of n gives n. */
  lemma {:induction false} ParseNatToString(n: nat)
    ensures ParseNat(NatToString(n)) == n
  {
    var s := NatToString(n);
    if n >= 10 {
      ParseNatToString(n / 10);
      assert s[..|s| - 1] == NatToString(n / 10);
    } else {
      assert s[..|s| - 1] == [];
    }
  }

  /** A slice of the second half of a concatenation is the same slice of that half. */
  lemma SliceAfterPrefix(a: string, b: string, x: nat, y: nat)
    requires x <= y <= |b|
    ensures (a + b)[|a| + x..|a| + y] == b[x..y]
  {
  }

  /** The longest prefix of s made of decimal digits. */
  function LeadingDigits(s: string): (d: string)
    ensures |d| <= |s| && d == s[..|d|] && AllDigits(d)
    ensures |d| < |s| ==> !IsDigit(s[|d|])
  {
    if s == [] || !IsDigit(s[0]) then [] else [s[0]] + LeadingDigits(s[1..])
  }

  /** A digit string followed by a non-digit is exactly the leading digit run. */
  lemma {:induction false} LeadingDigitsStop(d: string, rest: string)
    requires AllDigits(d) && rest != [] && !IsDigit(rest[0])
    ensures LeadingDigits(d + rest) == d
  {
    if d != [] {
      assert (d + rest)[1..] == d[1..] + rest;
      LeadingDigitsStop(d[1..], rest);
    }
  }

  /** `parts.join(sep)`: the parts in order with sep between neighbours, empty for no parts. */
  function Join(parts: seq<string>, sep: string): (r: string)
    ensures |parts| == 0 ==> r == ""
    ensures |parts| >= 1 ==> |r| == PartOffset(parts, sep, |parts| - 1) + |parts[|parts| - 1]|
  {
    if |parts| == 0 then ""
    else if |parts| == 1 then parts[0]
    else
      assert parts[1..][|parts| - 2] == parts[|parts| - 1];
      parts[0] + sep + Join(parts[1..], sep)
  }

  /** Where part i starts in Join(parts, sep): the earlier parts, each followed by one sep. */
  function PartOffset(parts: seq<string>, sep: string, i: nat): nat
    requires i <= |parts|
  {
    if i == 0 then 0 else |parts[0]| + |sep| + PartOffset(parts[1..], sep, i - 1)
  }

  /** Every part appears in the joined string, unchanged, at its offset. */
  lemma {:induction false} JoinPartAt(parts: seq<string>, sep: string, i: nat)
    requires i < |parts|
    ensures PartOffset(parts, sep, i) + |parts[i]| <= |Join(parts, sep)|
    ensures Join(parts, sep)[PartOffset(parts, sep, i)..PartOffset(parts, sep, i) + |parts[i]|] == parts[i]
  {
    if |parts| == 1 {
    } else if i == 0 {
      var r := Join(parts[1..], sep);
      assert Join(parts, sep) == parts[0] + (sep + r);
    } else {
      JoinPartAt(parts[1..], sep, i - 1);
      var head := parts[0] + sep;
      var rest := Join(parts[1..], sep);
      var o := PartOffset(parts[1..], sep, i - 1);
      var len := |parts[i]|;
      assert parts[1..][i - 1] == parts[i];
      assert rest[o..o + len] == parts[i];
      assert Join(parts, sep) == head + rest;
      assert PartOffset(parts, sep, i) == |head| + o;
      assert (head + rest)[|head| + o..|head| + o + len] == rest[o..o + len];
    }
  }

  /** Between part i and part i+1 of the joined string stands exactly one sep. */
  lemma {:induction false} JoinSepAt(parts: seq<string>, sep: string, i: nat)
    requires i + 1 < |parts|
    ensures PartOffset(parts, sep, i + 1) == PartOffset(parts, sep, i) + |parts[i]| + |sep|
    ensures var e := PartOffset(parts, sep, i) + |parts[i]|;
            e + |sep| <= |Join(parts, sep)| && Join(parts, sep)[e..e + |sep|] == sep
  {
    var head := parts[0] + sep;
    var rest := Join(parts[1..], sep);
    assert Join(parts, sep) == head + rest;
    if i == 0 {
      assert (head + rest)[|parts[0]|..|head|] == sep;
    } else {
      JoinSepAt(parts[1..], sep, i - 1);
      assert parts[1..][i - 1] == parts[i];
      var e := PartOffset(parts[1..], sep, i - 1) + |parts[i]|;
      assert rest[e..e + |sep|] == sep;
      SliceAfterPrefix(head, rest, e, e + |sep|);
    }
  }

  /** A slice of the middle of a three-part concatenation is the same slice of the middle. */
  lemma FramedSlice(head: string, mid: string, tail: string, x: nat, y: nat)
    requires x <= y <= |mid|
    ensures |head| + y <= |head + mid + tail|
    ensures (head + mid + tail)[|head| + x..|head| + y] == mid[x..y]
  {
  }
}
