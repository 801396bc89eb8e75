/**
 * Decimal integers as the C library writes and reads them: `%d` formatting;
 * `strtol`, which skips leading blanks and reads an optional sign and the
 * longest run of digits; `atoi`, which is the value `strtol` reads; and
 * GKeyFile's integer parse, which takes the `strtol` value only when
 * nothing but a blank follows the digits and the value fits a `gint`.
 */
module Decimal {
  import opened Common

  predicate IsDigit(c: char) { '0' <= c <= '9' }

  function DigitChar(d: nat): (c: char)
    requires d < 10
    ensures IsDigit(c)
  {
    (('0' as int) + d) as char
  }

  function DigitValue(c: char): (d: nat)
    requires IsDigit(c)
    ensures d < 10
  {
    (c as int) - ('0' as int)
  }

  predicate AllDigits(s: string) { forall k :: 0 <= k < |s| ==> IsDigit(s[k]) }

  /** The value of a string of decimal digits, most significant first. */
  function DigitsValue(s: string): nat
    requires AllDigits(s)
  {
    if |s| == 0 then 0 else DigitsValue(s[..|s| - 1]) * 10 + DigitValue(s[|s| - 1])
  }

  /** `%u`: the shortest decimal rendering of n. */
  function NatToDec(n: nat): (s: string)
    ensures 1 <= |s| && AllDigits(s)
    ensures |s| > 1 ==> s[0] != '0'
  {
    if n < 10 then [DigitChar(n)] else NatToDec(n / 10) + [DigitChar(n % 10)]
  }

  /** `%d`: a minus sign for negative values, then the digits of the magnitude. */
  function IntToDec(i: int): (s: string)
    ensures 1 <= |s|
    ensures i < 0 <==> s[0] == '-'
    ensures forall k :: 0 < k < |s| ==> IsDigit(s[k])
  {
    if i < 0 then "-" + NatToDec(-i) else NatToDec(i)
  }

  /** Reading the digits of n back gives n. */
  lemma {:induction false} NatToDecValue(n: nat)
    ensures DigitsValue(NatToDec(n)) == n
  {
    if n >= 10 {
      NatToDecValue(n / 10);
      var s := NatToDec(n);
      assert s[..|s| - 1] == NatToDec(n / 10);
    }
  }

  /** The blanks `strtol` skips and GKeyFile accepts after a number: space, tab, LF, VT, FF, CR. */
  predicate IsSpace(c: char) { c == ' ' || 9 <= c as int <= 13 }

  /** The number of leading blanks. */
  function LeadingSpaces(s: string): (n: nat)
    ensures n <= |s| && (forall k :: 0 <= k < n ==> IsSpace(s[k]))
    ensures n < |s| ==> !IsSpace(s[n])
  {
    if |s| > 0 && IsSpace(s[0]) then 1 + LeadingSpaces(s[1..]) else 0
  }

  /** The length of the longest prefix of s made of digits. */
  function DigitPrefixLength(s: string): (n: nat)
    ensures n <= |s| && AllDigits(s[..n])
    ensures n < |s| ==> !IsDigit(s[n])
  {
    if |s| > 0 && IsDigit(s[0]) then
      var n := 1 + DigitPrefixLength(s[1..]);
      assert s[..n] == [s[0]] + s[1..][..n - 1];
      n
    else 0
  }

  /** The value of the longest digit prefix and its length. */
  function ReadDigits(u: string): (r: (nat, nat))
    ensures r.1 <= |u|
  {
    var n := DigitPrefixLength(u);
    (DigitsValue(u[..n]), n)
  }

  /** An optional sign, then digits: the value and the length read, 0 when there is no digit. */
  function ReadSigned(t: string): (r: (int, nat))
    ensures r.1 <= |t|
  {
    if |t| > 0 && (t[0] == '-' || t[0] == '+') then
      var d := ReadDigits(t[1..]);
      (if t[0] == '-' then -(d.0 as int) else d.0, if d.1 == 0 then 0 else d.1 + 1)
    else ReadDigits(t)
  }

  /**
   * strtol(s, &end, 10) with unbounded values: the value read and the index
   * of `end`. Without a digit the value is 0 and `end` is the start of s.
   */
  function Strtol(s: string): (r: (int, nat))
    ensures r.1 <= |s|
  {
    var b := LeadingSpaces(s);
    var r := ReadSigned(s[b..]);
    (r.0, if r.1 == 0 then 0 else b + r.1)
  }

  /** The range of a C `gint`. */
  predicate IsGint(i: int) { -0x8000_0000 <= i < 0x8000_0000 }

  /**
   * GKeyFile's integer parse of a value (g_key_file_get_integer): None for
   * an empty value, for text after the number that does not start with a
   * blank, and for a value outside `gint`.
   */
  function KeyFileInteger(s: string): (r: Option<int>)
    ensures r.Some? ==> IsGint(r.value)
    ensures r.None? ==> |s| == 0 || !IsGint(Strtol(s).0) || (Strtol(s).1 < |s| && !IsSpace(s[Strtol(s).1]))
  {
    var (v, e) := Strtol(s);
    if |s| == 0 || (e < |s| && !IsSpace(s[e])) then None
    else if !IsGint(v) then None
    else Some(v)
  }

  /** `atoi`: the value `strtol` reads, 0 when there is no number. */
  function AtoI(s: string): int
  {
    Strtol(s).0
  }

  lemma {:induction false} LeadingSpacesAppend(pre: string, rest: string)
    requires forall k :: 0 <= k < |pre| ==> IsSpace(pre[k])
    requires |rest| == 0 || !IsSpace(rest[0])
    ensures LeadingSpaces(pre + rest) == |pre|
  {
    if |pre| > 0 {
      assert (pre + rest)[1..] == pre[1..] + rest;
      LeadingSpacesAppend(pre[1..], rest);
    } else {
      assert pre + rest == rest;
    }
  }

  lemma {:induction false} DigitPrefixOfDigits(d: string, post: string)
    requires AllDigits(d)
    requires |post| == 0 || !IsDigit(post[0])
    ensures DigitPrefixLength(d + post) == |d|
  {
    if |d| > 0 {
      assert (d + post)[1..] == d[1..] + post;
      DigitPrefixOfDigits(d[1..], post);
    } else {
      assert d + post == post;
    }
  }

  /** Blanks in front change where `strtol` stops, not what it reads. */
  lemma StrtolAfterBlanks(pre: string, t: string)
    requires forall k :: 0 <= k < |pre| ==> IsSpace(pre[k])
    requires |t| > 0 && !IsSpace(t[0])
    ensures Strtol(pre + t).0 == Strtol(t).0
    ensures Strtol(t).1 > 0 ==> Strtol(pre + t).1 == |pre| + Strtol(t).1
  {
    LeadingSpacesAppend(pre, t);
    assert (pre + t)[|pre|..] == t;
    assert t[0..] == t;
  }

  /** Reading a run of digits that the following text does not continue. */
  lemma ReadDigitsOf(d: string, post: string)
    requires |d| > 0 && AllDigits(d)
    requires |post| == 0 || !IsDigit(post[0])
    ensures ReadDigits(d + post).0 == DigitsValue(d) && ReadDigits(d + post).1 == |d|
  {
    DigitPrefixOfDigits(d, post);
    assert (d + post)[..|d|] == d;
  }

  lemma ReadSignedNegative(m: string, post: string)
    requires |m| > 0 && AllDigits(m)
    requires |post| == 0 || !IsDigit(post[0])
    ensures ReadSigned(['-'] + (m + post)).0 == -(DigitsValue(m) as int)
    ensures ReadSigned(['-'] + (m + post)).1 == |m| + 1
  {
    ReadDigitsOf(m, post);
    ReadSignedMinus(m + post);
  }

  lemma ReadSignedMinus(u: string)
    requires ReadDigits(u).1 > 0
    ensures ReadSigned(['-'] + u).0 == -(ReadDigits(u).0 as int)
    ensures ReadSigned(['-'] + u).1 == ReadDigits(u).1 + 1
  {
    assert (['-'] + u)[1..] == u;
  }

  lemma ReadSignedUnsigned(d: string, post: string)
    requires |d| > 0 && AllDigits(d)
    requires |post| == 0 || !IsDigit(post[0])
    ensures ReadSigned(d + post).0 == DigitsValue(d) && ReadSigned(d + post).1 == |d|
  {
    assert (d + post)[0] == d[0];
    ReadDigitsOf(d, post);
  }

  /** Without leading blanks, `strtol` is the signed read. */
  lemma StrtolNoBlanks(t: string)
    requires |t| > 0 && !IsSpace(t[0])
    ensures Strtol(t).0 == ReadSigned(t).0
    ensures ReadSigned(t).1 > 0 ==> Strtol(t).1 == ReadSigned(t).1
  {
    assert LeadingSpaces(t) == 0;
    assert t[0..] == t;
  }

  /** `strtol` on a `%d` number followed by text that does not continue it. */
  lemma StrtolOfDec(i: int, post: string)
    requires |post| == 0 || !IsDigit(post[0])
    ensures Strtol(IntToDec(i) + post).0 == i && Strtol(IntToDec(i) + post).1 == |IntToDec(i)|
  {
    if i < 0 {
      var m := NatToDec(-i);
      assert IntToDec(i) + post == ['-'] + (m + post);
      ReadSignedNegative(m, post);
      StrtolNoBlanks(['-'] + (m + post));
      NatToDecValue(-i);
    } else {
      var d := NatToDec(i);
      assert IntToDec(i) == d;
      ReadSignedUnsigned(d, post);
      assert (d + post)[0] == d[0];
      StrtolNoBlanks(d + post);
      NatToDecValue(i);
    }
  }

  /**
   * `strtol` on blanks, a `%d` number and text that does not continue the
   * number: it reads the number and stops right after it.
   */
  lemma StrtolOfDecimal(pre: string, i: int, post: string)
    requires forall k :: 0 <= k < |pre| ==> IsSpace(pre[k])
    requires |post| == 0 || !IsDigit(post[0])
    ensures Strtol(pre + IntToDec(i) + post).0 == i
    ensures Strtol(pre + IntToDec(i) + post).1 == |pre| + |IntToDec(i)|
  {
    var d := IntToDec(i);
    StrtolOfDec(i, post);
    assert !IsSpace(d[0]) by {
      if i >= 0 { assert IsDigit(NatToDec(i)[0]); }
    }
    assert pre + d + post == pre + (d + post);
    StrtolAfterBlanks(pre, d + post);
  }

  /**
   * GKeyFile reads a `gint` back from its `%d` text, also with blanks in
   * front and with anything after it that starts with a blank.
   */
  lemma KeyFileIntegerOfDecimal(pre: string, i: int, post: string)
    requires forall k :: 0 <= k < |pre| ==> IsSpace(pre[k])
    requires IsGint(i)
    requires |post| == 0 || IsSpace(post[0])
    ensures KeyFileInteger(pre + IntToDec(i) + post) == Some(i)
  {
    StrtolOfDecimal(pre, i, post);
    if |post| > 0 {
      assert (pre + IntToDec(i) + post)[|pre| + |IntToDec(i)|] == post[0];
    }
  }

  /** `%d` followed by GKeyFile's integer parse is the identity on `gint` values. */
  lemma KeyFileIntegerRoundTrip(i: int)
    requires IsGint(i)
    ensures KeyFileInteger(IntToDec(i)) == Some(i)
  {
    KeyFileIntegerOfDecimal("", i, "");
    assert "" + IntToDec(i) + "" == IntToDec(i);
  }

  /** A number followed by a character that is neither a digit nor a blank is refused. */
  lemma KeyFileIntegerRefusesTrailing(pre: string, i: int, c: char, rest: string)
    requires forall k :: 0 <= k < |pre| ==> IsSpace(pre[k])
    requires !IsDigit(c) && !IsSpace(c)
    ensures KeyFileInteger(pre + IntToDec(i) + [c] + rest) == None
  {
    StrtolOfDecimal(pre, i, [c] + rest);
    assert pre + IntToDec(i) + [c] + rest == pre + IntToDec(i) + ([c] + rest);
    assert (pre + IntToDec(i) + ([c] + rest))[|pre| + |IntToDec(i)|] == c;
  }

  /** A number outside `gint` is refused. */
  lemma KeyFileIntegerRefusesWide(i: int)
    requires !IsGint(i)
    ensures KeyFileInteger(IntToDec(i)) == None
  {
    StrtolOfDecimal("", i, "");
    assert "" + IntToDec(i) + "" == IntToDec(i);
  }

  /** A value with no number in it: empty, or starting with a character that cannot begin one. */
  lemma KeyFileIntegerRefusesNonNumber(c: char, rest: string)
    requires !IsDigit(c) && !IsSpace(c) && c != '-' && c != '+'
    ensures KeyFileInteger("") == None && KeyFileInteger([c] + rest) == None
  {
    var s := [c] + rest;
    assert LeadingSpaces(s) == 0;
    assert s[0..] == s;
  }

  /** `%d` followed by `atoi` is the identity. */
  lemma AtoIRoundTrip(i: int)
    ensures AtoI(IntToDec(i)) == i
  {
    StrtolOfDecimal("", i, "");
    assert "" + IntToDec(i) + "" == IntToDec(i);
  }

  /** `atoi` skips leading blanks and stops at the first character that is not a digit. */
  lemma AtoIStops(pre: string, i: int, c: char, rest: string)
    requires forall k :: 0 <= k < |pre| ==> IsSpace(pre[k])
    requires !IsDigit(c)
    ensures AtoI(pre + IntToDec(i) + [c] + rest) == i
  {
    StrtolOfDecimal(pre, i, [c] + rest);
    assert pre + IntToDec(i) + [c] + rest == pre + IntToDec(i) + ([c] + rest);
  }

  /** `atoi` reads 0 from text that does not start with a number. */
  lemma AtoINoNumber(c: char, rest: string)
    requires !IsDigit(c) && !IsSpace(c) && c != '-' && c != '+'
    ensures AtoI("") == 0 && AtoI([c] + rest) == 0
  {
    var s := [c] + rest;
    assert LeadingSpaces(s) == 0;
    assert s[0..] == s;
  }
}
