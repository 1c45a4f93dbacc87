/** The string handling the forms rely on: Python's `str.strip()` on the
    roll number, the name and the new class name, and the removal of the
    dashes from a `YYYY-MM-DD` date when the export file is named. */
module Text {

  /** The ASCII characters `str.isspace()` accepts: space, tab, line feed,
      vertical tab, form feed, carriage return and the four separators
      U+001C to U+001F. */
  predicate IsSpace(c: char)
  {
    c == ' ' || c == '\t' || c == '\n' || c == '\r' || c == '\U{B}' || c == '\U{C}' || '\U{1C}' <= c <= '\U{1F}'
  }

  /** The number of whitespace characters at the front of `s`. */
  function LeadingSpaces(s: string): (n: nat)
    ensures n <= |s|
    ensures forall k :: 0 <= k < n ==> IsSpace(s[k])
    ensures n < |s| ==> !IsSpace(s[n])
  {
    if s == [] || !IsSpace(s[0]) then 0 else 1 + LeadingSpaces(s[1..])
  }

  /** The number of whitespace characters at the back of `s`. */
  function TrailingSpaces(s: string): (n: nat)
    ensures n <= |s|
    ensures forall k :: |s| - n <= k < |s| ==> IsSpace(s[k])
    ensures n < |s| ==> !IsSpace(s[|s| - 1 - n])
  {
    if s == [] || !IsSpace(s[|s| - 1]) then 0 else 1 + TrailingSpaces(s[..|s| - 1])
  }

  /** `s.strip()`: `s` without its leading and trailing whitespace. */
  function Strip(s: string): (r: string)
    ensures r == [] <==> forall k :: 0 <= k < |s| ==> IsSpace(s[k])
    ensures r != [] ==> !IsSpace(r[0]) && !IsSpace(r[|r| - 1])
    ensures var i := LeadingSpaces(s);
            && i + |r| <= |s|
            && r == s[i..i + |r|]
            && forall k :: i + |r| <= k < |s| ==> IsSpace(s[k])
  {
    var lead := LeadingSpaces(s);
    if lead == |s| then
      assert s[0..0] == [];
      []
    else
      var trail := TrailingSpaces(s);
      assert trail < |s| - lead;
      var r := s[lead..|s| - trail];
      assert r == s[lead..lead + |r|];
      r
  }

  /** A string with no whitespace at either end is its own strip. */
  lemma StripUnpadded(s: string)
    requires s != [] && !IsSpace(s[0]) && !IsSpace(s[|s| - 1])
    ensures Strip(s) == s
  {
    assert LeadingSpaces(s) == 0;
    assert TrailingSpaces(s) == 0;
  }

  /** The test `if not x.strip()` of the forms. */
  predicate IsBlank(s: string)
  {
    Strip(s) == []
  }

  /** `s` with every occurrence of `c` removed, as `str.replace(c, "")` does. */
  function Without(s: string, c: char): (r: string)
    ensures |r| <= |s|
    ensures c !in r
    ensures forall d :: d != c ==> (d in r <==> d in s)
  {
    if s == [] then []
    else (if s[0] == c then [] else [s[0]]) + Without(s[1..], c)
  }

  lemma {:induction false} WithoutConcat(a: string, b: string, c: char)
    ensures Without(a + b, c) == Without(a, c) + Without(b, c)
  {
    if a == [] {
      assert a + b == b;
    } else {
      var head := if a[0] == c then [] else [a[0]];
      assert (a + b)[0] == a[0];
      assert (a + b)[1..] == a[1..] + b;
      assert Without(a + b, c) == head + Without(a[1..] + b, c);
      assert Without(a, c) == head + Without(a[1..], c);
      WithoutConcat(a[1..], b, c);
      assert head + (Without(a[1..], c) + Without(b, c)) == (head + Without(a[1..], c)) + Without(b, c);
    }
  }

  lemma {:induction false} WithoutAbsent(s: string, c: char)
    requires c !in s
    ensures Without(s, c) == s
  {
    if s != [] {
      WithoutAbsent(s[1..], c);
    }
  }

  predicate IsDigit(c: char)
  {
    '0' <= c <= '9'
  }

  /** A date as `strftime("%Y-%m-%d")` writes it. */
  predicate IsIsoDate(d: string)
  {
    && |d| == 10
    && d[4] == '-' && d[7] == '-'
    && forall k :: 0 <= k < 10 && k != 4 && k != 7 ==> IsDigit(d[k])
  }

  /** Removing `c` after a prefix free of it removes only what follows. */
  lemma WithoutAfterPrefix(a: string, b: string, c: char)
    requires c !in a
    ensures Without(a + [c] + b, c) == a + Without(b, c)
  {
    assert [c][1..] == [];
    assert Without([c], c) == [];
    WithoutConcat(a, [c], c);
    WithoutAbsent(a, c);
    assert Without(a + [c], c) == a + [];
    assert a + [] == a;
    WithoutConcat(a + [c], b, c);
  }

  /** Removing the dashes of a `YYYY-MM-DD` date gives `YYYYMMDD`. */
  lemma IsoDateWithoutDashes(d: string)
    requires IsIsoDate(d)
    ensures Without(d, '-') == d[..4] + d[5..7] + d[8..]
    ensures |Without(d, '-')| == 8
  {
    var year, month, day := d[..4], d[5..7], d[8..];
    var rest := month + ['-'] + day;
    assert d == year + ['-'] + rest;
    assert '-' !in year by { forall i | 0 <= i < 4 ensures year[i] != '-' { assert IsDigit(d[i]); } }
    assert '-' !in month by { forall i | 0 <= i < 2 ensures month[i] != '-' { assert IsDigit(d[5 + i]); } }
    assert '-' !in day by { forall i | 0 <= i < 2 ensures day[i] != '-' { assert IsDigit(d[8 + i]); } }
    WithoutAfterPrefix(year, rest, '-');
    WithoutAfterPrefix(month, day, '-');
    WithoutAbsent(day, '-');
    assert year + (month + day) == year + month + day;
  }
}
