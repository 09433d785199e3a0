/**
 * The string operations the serial protocol relies on, on both sides of the
 * link: Python's str.strip / str.split / ",".join / int() on the service,
 * and Arduino's String::trim / indexOf / toInt on the device.
 */
module Text {
  import opened Wrappers

  /** The ASCII whitespace set (space, tab, line feed, vertical tab, form feed, carriage return). */
  predicate IsSpace(c: char) {
    c == ' ' || ('\t' <= c <= '\r')
  }

  predicate IsDigit(c: char) {
    '0' <= c <= '9'
  }

  predicate AllDigits(s: string) {
    forall i :: 0 <= i < |s| ==> IsDigit(s[i])
  }

  predicate StartsWith(s: string, prefix: string) {
    |prefix| <= |s| && s[..|prefix|] == prefix
  }

  /** Drops leading whitespace. */
  function TrimLeft(s: string): (r: string)
    ensures |r| <= |s|
  {
    if s != [] && IsSpace(s[0]) then TrimLeft(s[1..]) else s
  }

  /** What TrimLeft keeps is a suffix that starts with a non-space, after nothing but spaces. */
  lemma {:induction false} TrimLeftSpec(s: string)
    ensures var r := TrimLeft(s);
      && r == s[|s| - |r|..]
      && (r == [] || !IsSpace(r[0]))
      && forall i :: 0 <= i < |s| - |r| ==> IsSpace(s[i])
  {
    if s != [] && IsSpace(s[0]) {
      TrimLeftSpec(s[1..]);
    }
  }

  /** Drops trailing whitespace. */
  function TrimRight(s: string): (r: string)
    ensures |r| <= |s|
  {
    if s != [] && IsSpace(s[|s| - 1]) then TrimRight(s[..|s| - 1]) else s
  }

  /** What TrimRight keeps is a prefix that ends with a non-space, before nothing but spaces. */
  lemma {:induction false} TrimRightSpec(s: string)
    ensures var r := TrimRight(s);
      && r == s[..|r|]
      && (r == [] || !IsSpace(r[|r| - 1]))
      && forall i :: |r| <= i < |s| ==> IsSpace(s[i])
  {
    if s != [] && IsSpace(s[|s| - 1]) {
      TrimRightSpec(s[..|s| - 1]);
    }
  }

  /** Python's str.strip() and Arduino's String::trim(), restricted to ASCII whitespace. */
  function Strip(s: string): (r: string)
    ensures |r| <= |s|
    ensures r == [] || (!IsSpace(r[0]) && !IsSpace(r[|r| - 1]))
  {
    TrimLeftSpec(s);
    TrimRightSpec(TrimLeft(s));
    TrimRight(TrimLeft(s))
  }

  lemma StripNoSpace(s: string)
    requires forall i :: 0 <= i < |s| ==> !IsSpace(s[i])
    ensures Strip(s) == s
  {
    if s != [] {
      assert !IsSpace(s[0]) && !IsSpace(s[|s| - 1]);
    }
  }

  lemma StripSingle(c: char)
    requires !IsSpace(c)
    ensures Strip([c]) == [c]
  {
  }

  /**
   * A line framed by a terminator: stripping removes exactly the trailing
   * whitespace when the text itself neither starts nor ends with whitespace.
   */
  lemma StripFramed(s: string, tail: string)
    requires s != [] && !IsSpace(s[0]) && !IsSpace(s[|s| - 1])
    requires forall i :: 0 <= i < |tail| ==> IsSpace(tail[i])
    ensures Strip(s + tail) == s
  {
    var t := s + tail;
    assert TrimLeft(t) == t by { assert t[0] == s[0]; }
    TrimRightSpec(t);
    var r := TrimRight(t);
    assert t[|s| - 1] == s[|s| - 1];
    assert r == t[..|s|] == s;
  }

  /** Stripping keeps a prefix that starts and ends with a non-space character. */
  lemma StripKeepsPrefix(s: string, p: string)
    requires StartsWith(s, p) && p != []
    requires !IsSpace(p[0]) && !IsSpace(p[|p| - 1])
    ensures StartsWith(Strip(s), p)
  {
    assert TrimLeft(s) == s by { assert s[0] == p[0]; }
    TrimRightSpec(s);
    assert s[|p| - 1] == p[|p| - 1];
    var r := TrimRight(s);
    assert r[..|p|] == s[..|p|];
  }

  /** Python's `s.replace(" ", "")`. */
  function RemoveSpaces(s: string): (r: string)
    ensures ' ' !in r
    ensures forall c :: c != ' ' ==> (c in r <==> c in s)
    ensures |r| <= |s|
  {
    if s == [] then []
    else if s[0] == ' ' then RemoveSpaces(s[1..])
    else [s[0]] + RemoveSpaces(s[1..])
  }

  /**
   * Python's `s.split(sep)` for a one-character separator: the pieces between
   * separators, always at least one (the empty string splits into `[""]`).
   */
  function Split(s: string, sep: char): (parts: seq<string>)
    ensures |parts| >= 1
    ensures forall i :: 0 <= i < |parts| ==> sep !in parts[i]
    decreases |s|
  {
    if s == [] then [[]]
    else
      var rest := Split(s[1..], sep);
      if s[0] == sep then [[]] + rest
      else [[s[0]] + rest[0]] + rest[1..]
  }

  /** Python's `sep.join(parts)`. */
  function Join(parts: seq<string>, sep: char): (r: string)
    ensures parts != [] ==> StartsWith(r, parts[0])
    ensures |parts| >= 2 ==> |parts[0]| < |r| && r[|parts[0]|] == sep
    decreases |parts|
  {
    if parts == [] then []
    else if |parts| == 1 then parts[0]
    else parts[0] + [sep] + Join(parts[1..], sep)
  }

  /** A piece free of separators splits into itself. */
  lemma {:induction false} SplitNoSep(a: string, sep: char)
    requires sep !in a
    ensures Split(a, sep) == [a]
    decreases |a|
  {
    if a != [] {
      SplitNoSep(a[1..], sep);
      assert [a[0]] + a[1..] == a;
    }
  }

  /** Splitting stops at the first separator. */
  lemma {:induction false} SplitAtSep(a: string, b: string, sep: char)
    requires sep !in a
    ensures Split(a + [sep] + b, sep) == [a] + Split(b, sep)
    decreases |a|
  {
    var s := a + [sep] + b;
    if a == [] {
      assert s[1..] == b;
    } else {
      assert s[1..] == a[1..] + [sep] + b;
      SplitAtSep(a[1..], b, sep);
      assert [a[0]] + a[1..] == a;
    }
  }

  /** Four single characters joined by the separator split back into themselves. */
  lemma SplitFourSingles(a: char, b: char, c: char, d: char, sep: char)
    requires a != sep && b != sep && c != sep && d != sep
    ensures Split([a, sep, b, sep, c, sep, d], sep) == [[a], [b], [c], [d]]
  {
    SplitNoSep([d], sep);
    SplitAtSep([c], [d], sep);
    assert [c, sep, d] == [c] + [sep] + [d];
    SplitAtSep([b], [c, sep, d], sep);
    assert [b, sep, c, sep, d] == [b] + [sep] + [c, sep, d];
    SplitAtSep([a], [b, sep, c, sep, d], sep);
    assert [a, sep, b, sep, c, sep, d] == [a] + [sep] + [b, sep, c, sep, d];
  }

  /** Joining pieces that hold no separator and splitting again gives the pieces back. */
  lemma {:induction false} SplitJoin(parts: seq<string>, sep: char)
    requires |parts| >= 1
    requires forall i :: 0 <= i < |parts| ==> sep !in parts[i]
    ensures Split(Join(parts, sep), sep) == parts
    decreases |parts|
  {
    if |parts| == 1 {
      SplitNoSep(parts[0], sep);
    } else {
      SplitJoin(parts[1..], sep);
      SplitAtSep(parts[0], Join(parts[1..], sep), sep);
      assert [parts[0]] + parts[1..] == parts;
    }
  }

  /** Splitting and joining again gives the original string back. */
  lemma {:induction false} JoinSplit(s: string, sep: char)
    ensures Join(Split(s, sep), sep) == s
    decreases |s|
  {
    if s != [] {
      JoinSplit(s[1..], sep);
      var rest := Split(s[1..], sep);
      if s[0] != sep {
        var parts := Split(s, sep);
        assert parts[1..] == rest[1..];
        if |rest| > 1 {
          assert rest == [rest[0]] + rest[1..];
        }
      }
    }
  }

  /** Arduino's String::indexOf(c): the first position of `c`, or -1. */
  function IndexOf(s: string, c: char): (k: int)
    ensures -1 <= k < |s|
  {
    if s == [] then -1
    else if s[0] == c then 0
    else
      var k := IndexOf(s[1..], c);
      if k == -1 then -1 else k + 1
  }

  /** IndexOf finds the first occurrence, and -1 means there is none. */
  lemma {:induction false} IndexOfSpec(s: string, c: char)
    ensures IndexOf(s, c) == -1 <==> c !in s
    ensures IndexOf(s, c) >= 0 ==> s[IndexOf(s, c)] == c && c !in s[..IndexOf(s, c)]
    decreases |s|
  {
    if s != [] && s[0] != c {
      IndexOfSpec(s[1..], c);
      var k := IndexOf(s[1..], c);
      if k >= 0 {
        assert s[..k + 1] == [s[0]] + s[1..][..k];
      } else {
        assert s == [s[0]] + s[1..];
      }
    }
  }

  /** What String::indexOf and substring extract agrees with Split. */
  lemma SplitAtIndexOf(s: string, sep: char)
    ensures IndexOf(s, sep) == -1 ==> Split(s, sep) == [s]
    ensures IndexOf(s, sep) >= 0 ==>
      Split(s, sep) == [s[..IndexOf(s, sep)]] + Split(s[IndexOf(s, sep) + 1..], sep)
  {
    IndexOfSpec(s, sep);
    var k := IndexOf(s, sep);
    if k == -1 {
      SplitNoSep(s, sep);
    } else {
      assert s == s[..k] + [sep] + s[k + 1..];
      SplitAtSep(s[..k], s[k + 1..], sep);
    }
  }

  function DigitValue(c: char): nat
    requires IsDigit(c)
  {
    (c as int) - ('0' as int)
  }

  function DigitChar(d: nat): (c: char)
    requires d < 10
    ensures IsDigit(c) && DigitValue(c) == d
  {
    (('0' as int) + d) as char
  }

  /** The value of a string of decimal digits (0 for the empty string). */
  function DigitsValue(s: string): nat
    requires AllDigits(s)
  {
    if s == [] then 0 else DigitsValue(s[..|s| - 1]) * 10 + DigitValue(s[|s| - 1])
  }

  /** Decimal text of a natural number, as Python's f"{n}" and Arduino's print(n) write it. */
  function NatToString(n: nat): (s: string)
    ensures |s| >= 1 && AllDigits(s)
    ensures n < 10 ==> s == [DigitChar(n)]
  {
    if n < 10 then [DigitChar(n)] else NatToString(n / 10) + [DigitChar(n % 10)]
  }

  lemma {:induction false} NatToStringValue(n: nat)
    ensures DigitsValue(NatToString(n)) == n
  {
    if n >= 10 {
      NatToStringValue(n / 10);
      var s := NatToString(n);
      assert s[..|s| - 1] == NatToString(n / 10);
    }
  }

  /**
   * Python's int(s) on a base-10 string: surrounding whitespace allowed,
   * an optional sign, then at least one digit; anything else is None
   * (the ValueError the caller catches).
   */
  function ParseInt(s: string): (r: Option<int>)
    ensures r.Some? ==> Strip(s) != []
  {
    var t := Strip(s);
    if t == [] then None
    else if t[0] == '-' || t[0] == '+' then
      var ds := t[1..];
      if ds != [] && AllDigits(ds) then
        Some(if t[0] == '-' then -(DigitsValue(ds) as int) else DigitsValue(ds))
      else None
    else if AllDigits(t) then Some(DigitsValue(t))
    else None
  }

  /** The service reads back exactly the number the device printed. */
  lemma ParseIntNatToString(n: nat)
    ensures ParseInt(NatToString(n)) == Some(n)
  {
    var s := NatToString(n);
    assert forall i :: 0 <= i < |s| ==> !IsSpace(s[i]) by {
      forall i | 0 <= i < |s| ensures !IsSpace(s[i]) { assert IsDigit(s[i]); }
    }
    StripNoSpace(s);
    assert IsDigit(s[0]);
    NatToStringValue(n);
  }

  /** The longest prefix of decimal digits. */
  function DigitPrefix(s: string): (r: string)
    ensures AllDigits(r) && |r| <= |s| && r == s[..|r|]
    ensures |r| < |s| ==> !IsDigit(s[|r|])
  {
    if s != [] && IsDigit(s[0]) then [s[0]] + DigitPrefix(s[1..]) else []
  }

  /**
   * Arduino's String::toInt (atol): skip leading whitespace, an optional sign,
   * then the value of the longest digit prefix; 0 when there are no digits.
   */
  function ToInt(s: string): (v: int)
    ensures (forall i :: 0 <= i < |s| ==> !IsDigit(s[i])) ==> v == 0
    ensures v < 0 ==> '-' in s
  {
    TrimLeftSpec(s);
    var t := TrimLeft(s);
    if t != [] && (t[0] == '-' || t[0] == '+') then
      var v := DigitsValue(DigitPrefix(t[1..])) as int;
      if t[0] == '-' then -v else v
    else DigitsValue(DigitPrefix(t))
  }

  lemma ToIntNatToString(n: nat)
    ensures ToInt(NatToString(n)) == n
  {
    var s := NatToString(n);
    assert IsDigit(s[0]);
    assert TrimLeft(s) == s;
    NatToStringValue(n);
    assert DigitPrefix(s) == s by { AllDigitsPrefix(s); }
  }

  /** `toInt` of a trimmed run of decimal digits is their value. */
  lemma ToIntOfDigits(d: string)
    requires d != [] && AllDigits(d)
    ensures ToInt(Strip(d)) == DigitsValue(d)
  {
    assert IsDigit(d[0]) && IsDigit(d[|d| - 1]);
    StripFramed(d, "");
    assert d + "" == d;
    assert TrimLeft(d) == d;
    AllDigitsPrefix(d);
  }

  lemma {:induction false} AllDigitsPrefix(s: string)
    requires AllDigits(s)
    ensures DigitPrefix(s) == s
  {
    if s != [] {
      AllDigitsPrefix(s[1..]);
    }
  }
}
