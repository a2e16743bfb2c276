/** Text rendering used by the alert messages: decimal numbers (`{:.0f}` of a
    whole value, `{:.1f}` of a value held in tenths), two-digit clock fields and
    Python's `str.join`. Each renderer has a reader beside it and a lemma that
    reading the rendered text gives back the value. */
module Text {

  import opened Options

  predicate IsDigit(c: char) { '0' <= c <= '9' }

  predicate AllDigits(s: string) { forall i :: 0 <= i < |s| ==> IsDigit(s[i]) }

  function DigitChar(d: nat): (c: char)
    requires d < 10
    ensures IsDigit(c) && c as int - '0' as int == d
  {
    ('0' as int + d) as char
  }

  function DigitValue(c: char): (d: nat)
    requires IsDigit(c)
    ensures d < 10 && DigitChar(d) == c
  {
    c as int - '0' as int
  }

  /** Decimal rendering of a natural number, no leading zeros. */
  function NatText(n: nat): (s: string)
    ensures |s| >= 1 && AllDigits(s)
    ensures n >= 10 <==> |s| >= 2
  {
    if n < 10 then [DigitChar(n)] else NatText(n / 10) + [DigitChar(n % 10)]
  }

  /** The number a string of decimal digits denotes. */
  function DecimalValue(s: string): nat
    requires AllDigits(s)
  {
    if s == [] then 0 else DecimalValue(s[..|s| - 1]) * 10 + DigitValue(s[|s| - 1])
  }

  lemma {:induction false} NatTextRoundTrip(n: nat)
    ensures DecimalValue(NatText(n)) == n
  {
    if n >= 10 {
      var s := NatText(n);
      assert s[..|s| - 1] == NatText(n / 10);
      NatTextRoundTrip(n / 10);
    }
  }

  /** `{x:.1f}` for x = t / 10, with t a whole number of tenths. */
  function TenthsText(t: int): string
  {
    if t < 0 then "-" + UnsignedTenthsText(-t) else UnsignedTenthsText(t)
  }

  function UnsignedTenthsText(u: nat): (s: string)
    ensures |s| >= 3 && s[|s| - 2] == '.'
    ensures AllDigits(s[..|s| - 2]) && IsDigit(s[|s| - 1])
    ensures s[0] != '-'
  {
    NatText(u / 10) + "." + [DigitChar(u % 10)]
  }

  /** Reads back a `{:.1f}` rendering as a number of tenths. */
  function ParseTenths(s: string): (r: Option<int>)
  {
    if |s| >= 1 && s[0] == '-' then
      match ParseUnsignedTenths(s[1..])
      case Some(u) => Some(-u)
      case None => None
    else ParseUnsignedTenths(s)
  }

  function ParseUnsignedTenths(s: string): (r: Option<int>)
    ensures r.Some? ==> r.value >= 0
  {
    if |s| >= 3 && s[|s| - 2] == '.' && AllDigits(s[..|s| - 2]) && IsDigit(s[|s| - 1]) then
      Some(DecimalValue(s[..|s| - 2]) * 10 + DigitValue(s[|s| - 1]))
    else None
  }

  lemma TenthsRoundTrip(t: int)
    ensures ParseTenths(TenthsText(t)) == Some(t)
  {
    var u := if t < 0 then -t else t;
    var s := UnsignedTenthsText(u);
    assert s[..|s| - 2] == NatText(u / 10);
    NatTextRoundTrip(u / 10);
    assert ParseUnsignedTenths(s) == Some(u);
    if t < 0 {
      assert TenthsText(t)[1..] == s;
    }
  }

  /** `%H` / `%M`: a field below 100 as exactly two digits. */
  function TwoDigits(n: nat): (s: string)
    requires n < 100
    ensures |s| == 2 && AllDigits(s)
    ensures DigitValue(s[0]) * 10 + DigitValue(s[1]) == n
  {
    [DigitChar(n / 10), DigitChar(n % 10)]
  }

  /** `sep.join(parts)`. */
  function Join(parts: seq<string>, sep: string): string
  {
    if |parts| == 0 then ""
    else if |parts| == 1 then parts[0]
    else parts[0] + sep + Join(parts[1..], sep)
  }

  /** Where part `i` starts in `Join(parts, sep)`: every earlier part and the
      separator after it come first. */
  function PartOffset(parts: seq<string>, sep: string, i: nat): nat
    requires i <= |parts|
  {
    if i == 0 then 0 else |parts[0]| + |sep| + PartOffset(parts[1..], sep, i - 1)
  }

  /** Length of a join: every part plus one separator between neighbours. */
  lemma {:induction false} JoinLength(parts: seq<string>, sep: string)
    requires |parts| >= 1
    ensures |Join(parts, sep)| == PartOffset(parts, sep, |parts| - 1) + |parts[|parts| - 1]|
  {
    if |parts| > 1 {
      var n := |parts|;
      JoinLength(parts[1..], sep);
      assert parts[1..][n - 2] == parts[n - 1];
      assert Join(parts, sep) == parts[0] + sep + Join(parts[1..], sep);
      assert PartOffset(parts, sep, n - 1) == |parts[0]| + |sep| + PartOffset(parts[1..], sep, n - 2);
    }
  }

  lemma SliceOfSuffix(a: string, b: string, x: nat, y: nat)
    requires x <= y <= |b|
    ensures (a + b)[|a| + x .. |a| + y] == b[x..y]
  {
  }

  /** Joining keeps every part, in order: part `i` is found at its offset, and
      unless it is the last one the separator follows it. */
  lemma {:induction false} JoinPlacesParts(parts: seq<string>, sep: string, i: nat)
    requires i < |parts|
    ensures PartOffset(parts, sep, i) + |parts[i]| <= |Join(parts, sep)|
    ensures Join(parts, sep)[PartOffset(parts, sep, i) .. PartOffset(parts, sep, i) + |parts[i]|] == parts[i]
    ensures i + 1 < |parts| ==>
      PartOffset(parts, sep, i + 1) == PartOffset(parts, sep, i) + |parts[i]| + |sep| <= |Join(parts, sep)|
    ensures i + 1 < |parts| ==>
      Join(parts, sep)[PartOffset(parts, sep, i) + |parts[i]| .. PartOffset(parts, sep, i + 1)] == sep
  {
    if |parts| == 1 {
    } else {
      var head := parts[0] + sep;
      var rest := Join(parts[1..], sep);
      assert Join(parts, sep) == head + rest;
      if i == 0 {
        assert (head + rest)[..|parts[0]|] == parts[0];
        assert (head + rest)[|parts[0]| .. |head|] == sep;
      } else {
        JoinPlacesParts(parts[1..], sep, i - 1);
        var o := PartOffset(parts[1..], sep, i - 1);
        var n := |parts[i]|;
        assert parts[1..][i - 1] == parts[i];
        SliceOfSuffix(head, rest, o, o + n);
        if i + 1 < |parts| {
          SliceOfSuffix(head, rest, o + n, PartOffset(parts[1..], sep, i));
        }
      }
    }
  }

  /** `x` is found in `s` starting at index `at`. */
  predicate OccursAt(s: string, at: nat, x: string)
  {
    at + |x| <= |s| && s[at .. at + |x|] == x
  }

  /** The middle of a three-piece concatenation is found right after the first piece. */
  lemma MiddleOccurs(a: string, x: string, b: string)
    ensures OccursAt(a + x + b, |a|, x)
  {
    assert (a + x + b)[|a| .. |a| + |x|] == x;
  }

  /** In `a + x + b + y + t`, `x` follows `a` and `y` follows `a + x + b`. */
  lemma TwoFieldsOccur(a: string, x: string, b: string, y: string, t: string)
    ensures OccursAt(a + x + b + y + t, |a|, x)
    ensures OccursAt(a + x + b + y + t, |a| + |x| + |b|, y)
  {
    MiddleOccurs(a, x, b + y + t);
    MiddleOccurs(a + x + b, y, t);
    assert a + x + (b + y + t) == a + x + b + y + t;
  }
}
