/** Decimal numbers as text: printing with `%lu` and reading with `atoi`. */
module Decimal {
  import opened Common

  predicate IsDigit(c: Byte) { 48 <= c <= 57 }

  predicate AllDigits(s: seq<Byte>) { forall i :: 0 <= i < |s| ==> IsDigit(s[i]) }

  /** `vsf_sysutil_ulong_to_str`. */
  function Print(n: nat): (s: seq<Byte>)
    ensures s != [] && AllDigits(s)
  {
    if n < 10 then [48 + n] else Print(n / 10) + [48 + n % 10]
  }

  /** The number a string of digits stands for. */
  function Value(s: seq<Byte>): (n: nat)
    requires AllDigits(s)
  {
    if s == [] then 0 else Value(s[..|s| - 1]) * 10 + (s[|s| - 1] - 48)
  }

  lemma {:induction false} ValueOfPrint(n: nat)
    ensures Value(Print(n)) == n
  {
    if n >= 10 {
      ValueOfPrint(n / 10);
      assert Print(n)[..|Print(n)| - 1] == Print(n / 10);
    }
  }

  /** Length of the run of digits that `s` starts with. */
  function DigitRun(s: seq<Byte>): (n: nat)
    ensures n <= |s| && AllDigits(s[..n]) && (n < |s| ==> !IsDigit(s[n]))
  {
    if s == [] || !IsDigit(s[0]) then 0
    else
      var n := DigitRun(s[1..]) + 1;
      assert s[..n] == [s[0]] + s[1..][..n - 1];
      n
  }

  lemma {:induction false} DigitRunOf(d: seq<Byte>, rest: seq<Byte>)
    requires AllDigits(d) && (rest != [] ==> !IsDigit(rest[0]))
    ensures DigitRun(d + rest) == |d|
  {
    if d == [] {
      assert d + rest == rest;
    } else {
      DigitRunOf(d[1..], rest);
      assert (d + rest)[1..] == d[1..] + rest;
    }
  }

  // ----- atoi, as the C library computes it

  predicate IsSpace(c: Byte) { c == 32 || 9 <= c <= 13 }

  predicate AllSpaces(s: seq<Byte>) { forall i :: 0 <= i < |s| ==> IsSpace(s[i]) }

  function SkipSpaces(s: seq<Byte>): seq<Byte> {
    if s != [] && IsSpace(s[0]) then SkipSpaces(s[1..]) else s
  }

  /** A 64-bit `long`, saturated, then cut down to a 32-bit `int`. */
  function ToInt(v: int): (r: int)
    ensures -0x8000_0000 <= r < 0x8000_0000
    ensures -0x8000_0000 <= v < 0x8000_0000 ==> r == v
  {
    var l := if v >= 0x8000_0000_0000_0000 then 0x7fff_ffff_ffff_ffff
             else if v < -0x8000_0000_0000_0000 then -0x8000_0000_0000_0000
             else v;
    var w := l % 0x1_0000_0000;
    if w >= 0x8000_0000 then w - 0x1_0000_0000 else w
  }

  /** The string up to its first NUL, as C sees it. */
  function CString(s: seq<Byte>): seq<Byte> {
    if s == [] || s[0] == 0 then [] else [s[0]] + CString(s[1..])
  }

  /** As many digits as there are. */
  function LeadingValue(s: seq<Byte>): int {
    Value(s[..DigitRun(s)])
  }

  /** A sign, then digits. */
  function SignedValue(t: seq<Byte>): int {
    if t != [] && t[0] == 45 then -LeadingValue(t[1..])
    else if t != [] && t[0] == 43 then LeadingValue(t[1..])
    else LeadingValue(t)
  }

  /** `atoi`: behind leading space, as far as the string goes. */
  function Atoi(s: seq<Byte>): int {
    ToInt(SignedValue(SkipSpaces(CString(s))))
  }

  lemma {:induction false} CStringOfDigits(s: seq<Byte>)
    requires AllDigits(s)
    ensures CString(s) == s
  {
    if s != [] { CStringOfDigits(s[1..]); }
  }

  lemma AtoiOfPrint(n: nat)
    requires n < 0x8000_0000
    ensures Atoi(Print(n)) == n
  {
    var s := Print(n);
    CStringOfDigits(s);
    assert SkipSpaces(s) == s;
    DigitRunOf(s, []);
    assert s + [] == s && s[..|s|] == s;
    ValueOfPrint(n);
  }

  lemma {:induction false} CStringOf(s: seq<Byte>, behind: seq<Byte>)
    requires 0 !in s && (behind == [] || behind[0] == 0)
    ensures CString(s + behind) == s
  {
    if s == [] {
      assert s + behind == behind;
    } else {
      CStringOf(s[1..], behind);
      assert (s + behind)[1..] == s[1..] + behind;
    }
  }

  lemma {:induction false} SpacesSkipped(spaces: seq<Byte>, s: seq<Byte>)
    requires AllSpaces(spaces) && (s != [] ==> !IsSpace(s[0]))
    ensures SkipSpaces(spaces + s) == s
  {
    if spaces == [] {
      assert spaces + s == s;
    } else {
      SpacesSkipped(spaces[1..], s);
      assert (spaces + s)[1..] == spaces[1..] + s;
    }
  }

  /** A sign in front of a number. */
  datatype Sign = Unsigned | Plus | Minus

  function SignText(sign: Sign): seq<Byte> {
    match sign
    case Unsigned => []
    case Plus => [43]
    case Minus => [45]
  }

  lemma LeadingValueOf(digits: seq<Byte>, rest: seq<Byte>)
    requires AllDigits(digits) && (rest != [] ==> !IsDigit(rest[0]))
    ensures LeadingValue(digits + rest) == Value(digits)
  {
    DigitRunOf(digits, rest);
    assert (digits + rest)[..|digits|] == digits;
  }

  lemma SignedValueOf(sign: Sign, u: seq<Byte>)
    requires u != [] && sign.Unsigned? ==> u[0] != 43 && u[0] != 45
    ensures SignedValue(SignText(sign) + u) == if sign.Minus? then -LeadingValue(u) else LeadingValue(u)
  {
    hide LeadingValue;
    var t := SignText(sign) + u;
    if sign.Unsigned? { assert t == u; } else { assert t[1..] == u; }
  }

  lemma AtoiOfParts(spaces: seq<Byte>, t: seq<Byte>, behind: seq<Byte>)
    requires AllSpaces(spaces) && 0 !in t && (t != [] ==> !IsSpace(t[0])) && (behind == [] || behind[0] == 0)
    ensures Atoi(spaces + t + behind) == ToInt(SignedValue(t))
  {
    hide SignedValue, ToInt;
    assert 0 !in spaces;
    CStringOf(spaces + t, behind);
    SpacesSkipped(spaces, t);
  }

  /** `atoi` reads every text that consists of white space, a sign, digits and what does not belong
      to the number any more, up to a NUL or the end. */
  lemma AtoiReads(spaces: seq<Byte>, sign: Sign, digits: seq<Byte>, rest: seq<Byte>, behind: seq<Byte>)
    requires AllSpaces(spaces) && AllDigits(digits) && 0 !in rest
    requires rest != [] ==> !IsDigit(rest[0])
    requires digits == [] && rest != [] && sign.Unsigned? ==> !IsSpace(rest[0]) && rest[0] != 43 && rest[0] != 45
    requires behind == [] || behind[0] == 0
    ensures var v: int := Value(digits);
      Atoi(spaces + (SignText(sign) + (digits + rest)) + behind) == ToInt(if sign.Minus? then -v else v)
  {
    hide Atoi, SignedValue, LeadingValue, ToInt, Value, AllSpaces;
    var u := digits + rest;
    assert 0 !in digits;
    assert u != [] ==> u[0] == if digits != [] then digits[0] else rest[0];
    hide AllDigits;
    LeadingValueOf(digits, rest);
    SignedValueOf(sign, u);
    AtoiOfParts(spaces, SignText(sign) + u, behind);
  }

  // ----- file sizes

  /** What a text means as a size: nothing unless it consists of at most 15 digits. */
  function FilesizeOf(s: seq<Byte>): nat {
    var t := CString(s);
    if |t| <= 15 && AllDigits(t) then Value(t) else 0
  }

  function Pow10(n: nat): nat {
    if n == 0 then 1 else Pow10(n - 1) * 10
  }

  lemma {:induction false} ValueFromLeft(s: seq<Byte>)
    requires s != [] && AllDigits(s)
    ensures Value(s) == (s[0] - 48) * Pow10(|s| - 1) + Value(s[1..])
  {
    if |s| > 1 {
      var t := s[..|s| - 1];
      ValueFromLeft(t);
      assert s[1..][..|s| - 2] == t[1..];
      assert (s[0] - 48) * Pow10(|s| - 2) * 10 == (s[0] - 48) * Pow10(|s| - 1);
    }
  }

  /** `vsf_sysutil_a_to_filesize_t`: adds up the digits from the right. */
  method ParseFilesize(s: seq<Byte>) returns (result: nat)
    ensures result == FilesizeOf(s)
  {
    hide Value, Pow10;
    var t := CString(s);
    var mult: nat := 1;
    result := 0;
    if |t| > 15 { return; }
    assert Value([]) == 0 && Pow10(0) == 1 by { Nothing(); }
    assert t[|t|..] == [];
    for i := 0 to |t|
      invariant AllDigits(t[|t| - i..]) && result == Value(t[|t| - i..]) && mult == Pow10(i)
    {
      var c: int := t[|t| - (i + 1)];
      if c < 48 || c > 57 { return 0; }
      ghost var more := t[|t| - (i + 1)..];
      assert more[1..] == t[|t| - i..];
      ValueFromLeft(more);
      result := result + (c - 48) * mult;
      mult := mult * 10;
      assert mult == Pow10(i + 1) by { NextPower(i); }
    }
    assert t[|t| - |t|..] == t;
  }

  lemma Nothing()
    ensures Value([]) == 0 && Pow10(0) == 1
  {
  }

  lemma NextPower(n: nat)
    ensures Pow10(n + 1) == Pow10(n) * 10
  {
  }

  /** It undoes printing, up to 15 digits. */
  lemma FilesizeOfPrint(n: nat)
    requires n < Pow10(15)
    ensures FilesizeOf(Print(n)) == n
  {
    CStringOfDigits(Print(n));
    ValueOfPrint(n);
    PrintIsShort(n, 15);
  }

  lemma {:induction false} PrintIsShort(n: nat, k: nat)
    requires k > 0 && n < Pow10(k)
    ensures |Print(n)| <= k
  {
    if n >= 10 {
      assert k > 1 by { assert Pow10(1) == Pow10(0) * 10; }
      PrintIsShort(n / 10, k - 1);
    }
  }
}
