/**
IPv6 addresses (`ipaddrparse.c`): groups of hexadecimal digits, `::` for a run of zeroes,
and a dotted quad in place of two groups. Printing and parsing are shown to be inverse.
*/
module Ipv6Parse {
  import opened Common
  import opened Str
  import opened Decimal
  import opened IpAddrParse

  // ----- one hexadecimal group

  /** `vsf_sysutil_toupper`. */
  function ToUpper(c: Byte): Byte {
    if 97 <= c <= 122 then c - 32 else c
  }

  /** The value of a hexadecimal digit, or -1. */
  function HexDigit(c: Byte): (r: int)
    ensures -1 <= r < 16
  {
    var u := ToUpper(c);
    if 48 <= u <= 57 then u - 48 else if 65 <= u <= 70 then u - 65 + 10 else -1
  }

  /** The character stands for the digit `d`, in either case. */
  ghost predicate Stands(c: Byte, d: nat) {
    d < 16 && (c == "0123456789abcdef"[d] as int || c == "0123456789ABCDEF"[d] as int)
  }

  lemma DigitIsPlace(c: Byte, d: nat)
    ensures HexDigit(c) == d <==> Stands(c, d)
  {
  }

  /** The value of `s`, unless it has a foreign character or leaves 16 bits on the way. */
  function HexOf(s: seq<Byte>): Option<nat> {
    if s == [] then Some(0)
    else
      var d := HexDigit(s[|s| - 1]);
      match HexOf(s[..|s| - 1])
      case None => None
      case Some(v) => if d < 0 || v * 16 + d > 0xffff then None else Some(v * 16 + d)
  }

  function TwoBytes(v: nat): seq<Byte>
    requires v <= 0xffff
  {
    [v / 256, v % 256]
  }

  lemma {:induction false} HexPrefix(s: seq<Byte>, n: nat)
    requires n <= |s| && HexOf(s[..n]).None?
    ensures HexOf(s).None?
    decreases |s|
  {
    if n < |s| {
      var t := s[..|s| - 1];
      assert t[..n] == s[..n];
      HexPrefix(t, n);
    } else {
      assert s[..n] == s;
    }
  }

  lemma {:induction false} HexBound(s: seq<Byte>)
    ensures HexOf(s).Some? ==> HexOf(s).value <= 0xffff
  {
    if s != [] { HexBound(s[..|s| - 1]); }
  }

  /** `ipv6_parse_hex`: appends two bytes to `out`. */
  method ParseHex(out: seq<Byte>, s: seq<Byte>) returns (ok: bool, r: seq<Byte>)
    ensures ok == HexOf(s).Some?
    ensures ok ==> HexOf(s).value <= 0xffff && r == out + TwoBytes(HexOf(s).value)
  {
    var val := 0;
    for i := 0 to |s|
      invariant HexOf(s[..i]) == Some(val) && 0 <= val <= 0xffff
    {
      assert s[..i + 1][..i] == s[..i];
      var ch := HexDigit(s[i]);
      if ch < 0 || val * 16 + ch > 0xffff {
        HexPrefix(s, i + 1);
        return false, out;
      }
      val := val * 16 + ch;
    }
    assert s[..|s|] == s;
    return true, out + [val / 256, val % 256];
  }

  /** The number with these digits. */
  function Radix(digits: seq<nat>): nat {
    if digits == [] then 0 else Radix(digits[..|digits| - 1]) * 16 + digits[|digits| - 1]
  }

  /** The text has these digits, each in either case. */
  ghost predicate Spells(s: seq<Byte>, digits: seq<nat>) {
    |s| == |digits| && forall i :: 0 <= i < |s| ==> Stands(s[i], digits[i])
  }

  /** Whatever the cases of its letters and however many zeroes it starts with, a text has the
      value of its digits, if that has 16 bits. */
  lemma {:induction false} HexOfSpelled(s: seq<Byte>, digits: seq<nat>)
    requires Spells(s, digits)
    ensures HexOf(s) == if Radix(digits) <= 0xffff then Some(Radix(digits)) else None
  {
    hide Stands, HexDigit;
    if s != [] {
      var n := |s| - 1;
      HexOfSpelled(s[..n], digits[..n]);
      DigitIsPlace(s[n], digits[n]);
    }
  }

  /** Only such texts have a value. */
  lemma {:induction false} SpelledByHex(s: seq<Byte>) returns (digits: seq<nat>)
    requires HexOf(s).Some?
    ensures Spells(s, digits) && HexOf(s) == Some(Radix(digits))
  {
    hide Stands, HexDigit;
    if s == [] {
      digits := [];
    } else {
      var n := |s| - 1;
      var front := SpelledByHex(s[..n]);
      DigitIsPlace(s[n], HexDigit(s[n]));
      digits := front + [HexDigit(s[n])];
      assert digits[..n] == front;
      forall i | 0 <= i < |s| ensures Stands(s[i], digits[i]) {
        if i < n { assert s[i] == s[..n][i] && digits[i] == front[i]; }
      }
    }
  }

  // ----- a dotted quad

  /** Scanning state: the finished numbers, the current one, whether it has a digit. */
  datatype Quad = Quad(done: seq<Byte>, val: nat, seen: bool)

  function QuadStep(q: Quad, c: Byte): Option<Quad> {
    if c == DOT then
      if !q.seen || |q.done| == 3 || q.val > 255 then None else Some(Quad(q.done + [q.val], 0, false))
    else if IsDigit(c) && q.val * 10 + (c - 48) <= 255 then Some(Quad(q.done, q.val * 10 + (c - 48), true))
    else None
  }

  function QuadScan(s: seq<Byte>, q: Quad): Option<Quad> {
    if s == [] then Some(q)
    else
      match QuadScan(s[..|s| - 1], q)
      case None => None
      case Some(p) => QuadStep(p, s[|s| - 1])
  }

  const START: Quad := Quad([], 0, false)

  function QuadOf(s: seq<Byte>): Option<seq<Byte>> {
    match QuadScan(s, START)
    case None => None
    case Some(q) => if |q.done| == 3 && q.seen && q.val <= 255 then Some(q.done + [q.val]) else None
  }

  lemma {:induction false} QuadPrefix(s: seq<Byte>, n: nat, q: Quad)
    requires n <= |s| && QuadScan(s[..n], q).None?
    ensures QuadScan(s, q).None?
    decreases |s|
  {
    if n < |s| {
      var t := s[..|s| - 1];
      assert t[..n] == s[..n];
      QuadPrefix(t, n, q);
    } else {
      assert s[..n] == s;
    }
  }

  /** The numbers packed into one word, as the scanner keeps them. */
  function Packed(v: seq<Byte>): nat {
    if v == [] then 0
    else
      var last: int := v[|v| - 1];
      Packed(v[..|v| - 1]) * 256 + last
  }

  lemma PackedStep(v: seq<Byte>, b: Byte)
    ensures Packed(v + [b]) == Packed(v) * 256 + b
  {
    assert (v + [b])[..|v|] == v;
  }

  /** The four bytes of a word, the most significant one first. */
  function Unpacked(p: nat): seq<Byte>
    requires p < 0x1_0000_0000
  {
    [p / 0x100_0000, p / 0x1_0000 % 256, p / 0x100 % 256, p % 256]
  }

  lemma Unpack(v: seq<Byte>)
    requires |v| == 4
    ensures Packed(v) < 0x1_0000_0000 && Unpacked(Packed(v)) == v
  {
    assert v[..3][..2][..1][..0] == [];
    var w: int, x: int, y: int, z: int := v[0], v[1], v[2], v[3];
    assert Packed(v[..3][..2][..1]) == w;
    assert Packed(v[..3][..2]) == w * 256 + x;
    assert Packed(v[..3]) == (w * 256 + x) * 256 + y;
    assert Packed(v) == ((w * 256 + x) * 256 + y) * 256 + z;
    FourDigits(v[0], v[1], v[2], v[3]);
  }

  lemma FourDigits(a: Byte, b: Byte, c: Byte, d: Byte)
    ensures var w: int, x: int, y: int, z: int := a, b, c, d;
            var p := ((w * 256 + x) * 256 + y) * 256 + z;
            p / 0x100_0000 == a && p / 0x1_0000 % 256 == b && p / 0x100 % 256 == c && p % 256 == d
  {
    var w: int, x: int, y: int, z: int := a, b, c, d;
    var h := w * 256 + x;
    var p := (h * 256 + y) * 256 + z;
    assert p / 0x100 == h * 256 + y;
    assert p / 0x1_0000 == h;
    assert p / 0x100_0000 == w;
  }

  /** `ipv4_parse_dotquad`: appends four bytes to `out`. */
  method ParseDotquad(out: seq<Byte>, s: seq<Byte>) returns (ok: bool, r: seq<Byte>)
    ensures ok == QuadOf(s).Some?
    ensures ok ==> r == out + QuadOf(s).value
  {
    var val: int, finalVal: int, seenChar, dots := 0, 0, false, 0;
    ghost var done: seq<Byte> := [];
    assert finalVal == Packed(done);
    hide Packed, Unpacked;
    for i := 0 to |s|
      invariant 0 <= val <= 255 && QuadScan(s[..i], START) == Some(Quad(done, val, seenChar))
      invariant dots == |done| <= 3 && finalVal == Packed(done)
    {
      assert s[..i + 1][..i] == s[..i];
      var ch := s[i];
      if ch == DOT {
        if !seenChar || dots == 3 {
          QuadPrefix(s, i + 1, START);
          return false, out;
        }
        seenChar := false;
        dots := dots + 1;
        finalVal := finalVal * 256 + val;
        PackedStep(done, val);
        done := done + [val];
        val := 0;
      } else if IsDigit(ch) {
        val := val * 10 + (ch - 48);
        if val > 255 {
          QuadPrefix(s, i + 1, START);
          return false, out;
        }
        seenChar := true;
      } else {
        QuadPrefix(s, i + 1, START);
        return false, out;
      }
    }
    assert s[..|s|] == s;
    if dots != 3 || !seenChar { return false, out; }
    finalVal := finalVal * 256 + val;
    PackedStep(done, val);
    Unpack(done + [val]);
    return true, out + Unpacked(finalVal);
  }

  lemma {:induction false} QuadScanConcat(a: seq<Byte>, b: seq<Byte>, q: Quad)
    ensures QuadScan(a + b, q) == match QuadScan(a, q) case None => None case Some(p) => QuadScan(b, p)
    decreases |b|
  {
    if b == [] {
      assert a + b == a;
    } else {
      var c := b[..|b| - 1];
      QuadScanConcat(a, c, q);
      assert (a + b)[..|a + b| - 1] == a + c;
      if QuadScan(a, q).None? { QuadPrefix(a + b, |a|, q); assert (a + b)[..|a|] == a; }
    }
  }

  /** A number of a quad: digits, with or without zeroes in front. */
  predicate IsField(f: seq<Byte>) {
    f != [] && AllDigits(f) && Value(f) <= 255
  }

  predicate AreFields(fields: seq<seq<Byte>>) {
    forall i :: 0 <= i < |fields| ==> IsField(fields[i])
  }

  function Values(fields: seq<seq<Byte>>): (r: seq<Byte>)
    requires AreFields(fields)
    ensures |r| == |fields| && forall i :: 0 <= i < |r| ==> r[i] == Value(fields[i])
  {
    seq(|fields|, i requires 0 <= i < |fields| => Value(fields[i]))
  }

  lemma {:induction false} QuadScanDigits(f: seq<Byte>, done: seq<Byte>)
    requires AllDigits(f) && Value(f) <= 255
    ensures QuadScan(f, Quad(done, 0, false)) == Some(Quad(done, Value(f), f != []))
  {
    if f != [] { QuadScanDigits(f[..|f| - 1], done); }
  }

  lemma QuadScanField(f: seq<Byte>, rest: seq<Byte>, done: seq<Byte>)
    requires IsField(f) && |done| < 3
    ensures QuadScan(f + [DOT] + rest, Quad(done, 0, false)) == QuadScan(rest, Quad(done + [Value(f)], 0, false))
  {
    QuadScanDigits(f, done);
    QuadScanConcat(f + [DOT], rest, Quad(done, 0, false));
    QuadScanConcat(f, [DOT], Quad(done, 0, false));
    var q := Quad(done, Value(f), true);
    assert QuadScan([DOT][..0], q) == Some(q);
    assert QuadScan([DOT], q) == QuadStep(q, DOT);
  }

  /** Four numbers with dots between them are read as they are. */
  lemma QuadOfFields(fields: seq<seq<Byte>>)
    requires |fields| == 4 && AreFields(fields)
    ensures QuadOf(Join(fields, DOT)) == Some(Values(fields))
  {
    hide QuadScan, Value, AllDigits;
    var v := Values(fields);
    var b, c, d := fields[1..], fields[2..], fields[3..];
    QuadScanField(fields[0], Join(b, DOT), []);
    QuadScanField(fields[1], Join(c, DOT), [v[0]]);
    QuadScanField(fields[2], Join(d, DOT), [v[0]] + [v[1]]);
    QuadScanDigits(fields[3], [v[0]] + [v[1]] + [v[2]]);
    assert b[1..] == c && c[1..] == d && [] + [v[0]] == [v[0]];
    assert [v[0]] + [v[1]] + [v[2]] + [v[3]] == v;
  }

  /** Only they are. */
  lemma FieldsOfQuad(s: seq<Byte>) returns (fields: seq<seq<Byte>>)
    requires QuadOf(s).Some?
    ensures |fields| == 4 && AreFields(fields) && s == Join(fields, DOT) && QuadOf(s) == Some(Values(fields))
  {
    fields := FieldsOfScan(s);
    var q := QuadScan(s, START).value;
    hide Join, QuadScan, AllDigits, Value;
    assert IsField(fields[3]) && Values(fields)[..3] == q.done;
    assert Values(fields) == q.done + [q.val];
  }

  /** The finished numbers and the one under way, which may be empty. */
  ghost predicate Scanned(s: seq<Byte>, q: Quad, fields: seq<seq<Byte>>) {
    && |fields| == |q.done| + 1 && s == Join(fields, DOT)
    && (forall i :: 0 <= i < |q.done| ==> IsField(fields[i]) && Value(fields[i]) == q.done[i])
    && var f := fields[|q.done|];
      AllDigits(f) && Value(f) == q.val <= 255 && q.seen == (f != [])
  }

  lemma ScannedDot(s: seq<Byte>, q: Quad, fields: seq<seq<Byte>>)
    requires Scanned(s, q, fields) && QuadStep(q, DOT).Some?
    ensures Scanned(s + [DOT], QuadStep(q, DOT).value, fields + [[]])
  {
    JoinSnoc(fields, [], DOT);
    assert Join(fields, DOT) + [DOT] + [] == s + [DOT];
    hide Join;
  }

  lemma ScannedDigit(s: seq<Byte>, q: Quad, fields: seq<seq<Byte>>, c: Byte)
    requires Scanned(s, q, fields) && c != DOT && QuadStep(q, c).Some?
    ensures var last := |q.done|;
      Scanned(s + [c], QuadStep(q, c).value, fields[..last] + [fields[last] + [c]])
  {
    var last := |q.done|;
    var f := fields[last];
    DigitAppended(f, c);
    hide AllDigits, Value, IsField;
    JoinGrows(fields[..last], f, [c], DOT);
    assert fields[..last] + [f] == fields;
    hide Join;
    var grown := fields[..last] + [f + [c]];
    assert |grown| == last + 1 && grown[last] == f + [c] && forall i :: 0 <= i < last ==> grown[i] == fields[i];
  }

  lemma DigitAppended(f: seq<Byte>, c: Byte)
    requires AllDigits(f) && IsDigit(c)
    ensures AllDigits(f + [c]) && Value(f + [c]) == Value(f) * 10 + (c - 48)
  {
    assert (f + [c])[..|f|] == f;
  }

  lemma {:induction false} FieldsOfScan(s: seq<Byte>) returns (fields: seq<seq<Byte>>)
    requires QuadScan(s, START).Some?
    ensures Scanned(s, QuadScan(s, START).value, fields)
  {
    if s == [] {
      fields := [[]];
    } else {
      var front, c := s[..|s| - 1], s[|s| - 1];
      var q := QuadScan(front, START).value;
      fields := FieldsOfScan(front);
      assert s == front + [c];
      hide Scanned, QuadStep;
      if c == DOT {
        ScannedDot(front, q, fields);
        fields := fields + [[]];
      } else {
        ScannedDigit(front, q, fields, c);
        assert |fields| == |q.done| + 1 by { ScannedLength(front, q, fields); }
        fields := fields[..|q.done|] + [fields[|q.done|] + [c]];
      }
    }
  }

  lemma ScannedLength(s: seq<Byte>, q: Quad, fields: seq<seq<Byte>>)
    requires Scanned(s, q, fields)
    ensures |fields| == |q.done| + 1
  {
  }

  lemma {:induction false} JoinSnoc(fields: seq<seq<Byte>>, f: seq<Byte>, sep: Byte)
    requires fields != []
    ensures Join(fields + [f], sep) == Join(fields, sep) + [sep] + f
  {
    if |fields| == 1 {
      assert (fields + [f])[1..] == [f];
    } else {
      JoinSnoc(fields[1..], f, sep);
      assert (fields + [f])[1..] == fields[1..] + [f];
    }
  }

  lemma {:induction false} JoinGrows(fields: seq<seq<Byte>>, f: seq<Byte>, more: seq<Byte>, sep: Byte)
    ensures Join(fields + [f + more], sep) == Join(fields + [f], sep) + more
  {
    if fields != [] {
      JoinSnoc(fields, f + more, sep);
      JoinSnoc(fields, f, sep);
    }
  }

  // ----- groups separated by colons

  function Append(a: Option<seq<Byte>>, b: Option<seq<Byte>>): Option<seq<Byte>> {
    if a.None? || b.None? then None else Some(a.value + b.value)
  }

  /** One piece between colons: a quad if it has a dot, otherwise two bytes of hex. */
  function PieceOf(s: seq<Byte>): Option<seq<Byte>> {
    if DOT in s then QuadOf(s)
    else
      match HexOf(s)
      case None => None
      case Some(v) => HexBound(s); Some(TwoBytes(v))
  }

  function GroupsOf(s: seq<Byte>): Option<seq<Byte>>
    decreases |s|
  {
    if s == [] then Some([])
    else
      var (piece, rest) := Split(s, [COLON]);
      if piece == [] then None else Append(PieceOf(piece), GroupsOf(rest))
  }

  /** `ipv6_parse_main`: appends the bytes of all groups of `s`. */
  method ParseMain(s: seq<Byte>) returns (ok: bool, out: seq<Byte>)
    ensures ok == GroupsOf(s).Some?
    ensures ok ==> out == GroupsOf(s).value
  {
    hide Split, QuadOf, HexOf;
    var lhs := s;
    out := [];
    ghost var whole := GroupsOf(s);
    while lhs != []
      invariant whole.Some? == GroupsOf(lhs).Some?
      invariant whole.Some? ==> whole.value == out + GroupsOf(lhs).value
      decreases |lhs|
    {
      var piece, rhs := SplitText(lhs, [COLON]);
      if piece == [] { return false, out; }
      var found, _ := LocateChars(piece, [DOT]);
      ghost var before := out;
      if found {
        ok, out := ParseDotquad(out, piece);
      } else {
        ok, out := ParseHex(out, piece);
      }
      if !ok { return; }
      SplitShrinks(lhs);
      assert GroupsOf(rhs).Some? ==>
          before + (PieceOf(piece).value + GroupsOf(rhs).value) == before + PieceOf(piece).value + GroupsOf(rhs).value;
      lhs := rhs;
    }
    return true, out;
  }

  lemma SplitShrinks(s: seq<Byte>)
    requires s != []
    ensures |Split(s, [COLON]).1| < |s|
  {
  }

  /** The bytes `vsf_sysutil_parse_ipv6` leaves in its buffer. */
  function Ipv6Of(s: seq<Byte>): Option<seq<Byte>> {
    var (l, r) := Split(s, [COLON, COLON]);
    var a, b := GroupsOf(l), GroupsOf(r);
    if a.None? || b.None? || |a.value| + |b.value| > 16 then None
    else if b.value == [] then a
    else Some(a.value + Zeros(16 - |a.value| - |b.value|) + b.value)
  }

  /** `vsf_sysutil_parse_ipv6`. */
  method ParseIpv6(str: seq<Byte>) returns (r: Option<seq<Byte>>)
    ensures r == Ipv6Of(str)
  {
    hide GroupsOf, Split;
    var lhs, rhs := SplitText(str, [COLON, COLON]);
    var ok, ret := ParseMain(lhs);
    if !ok { return None; }
    var rhsRet;
    ok, rhsRet := ParseMain(rhs);
    if !ok { return None; }
    if |ret| + |rhsRet| > 16 { return None; }
    if |rhsRet| > 0 {
      var addNulls := 16 - (|ret| + |rhsRet|);
      ghost var front, n := ret, addNulls;
      while addNulls > 0
        invariant 0 <= addNulls <= n && ret == front + Zeros(n - addNulls)
      {
        addNulls := addNulls - 1;
        ret := ret + [0];
      }
      ret := ret + rhsRet;
    }
    return Some(ret);
  }

  // ----- which texts are accepted, and what they mean

  /** A group: hexadecimal digits in a text that spells them, or the four numbers of a quad. */
  datatype Group = Hex(text: seq<Byte>, digits: seq<nat>) | Dotted(fields: seq<seq<Byte>>)

  ghost predicate IsGroup(g: Group) {
    match g
    case Hex(text, digits) => digits != [] && Spells(text, digits) && Radix(digits) <= 0xffff
    case Dotted(fields) => |fields| == 4 && AreFields(fields)
  }

  function TextOf(g: Group): seq<Byte> {
    match g
    case Hex(text, _) => text
    case Dotted(fields) => Join(fields, DOT)
  }

  ghost function BytesOf(g: Group): (b: seq<Byte>)
    requires IsGroup(g)
    ensures |b| == if g.Hex? then 2 else 4
  {
    match g
    case Hex(_, digits) => TwoBytes(Radix(digits))
    case Dotted(fields) => Values(fields)
  }

  ghost predicate AreGroups(g: seq<Group>) { forall i :: 0 <= i < |g| ==> IsGroup(g[i]) }

  /** The groups with colons between them. */
  function Text(g: seq<Group>): seq<Byte> {
    if g == [] then [] else if |g| == 1 then TextOf(g[0]) else TextOf(g[0]) + [COLON] + Text(g[1..])
  }

  /** Their bytes. */
  ghost function RawBytes(g: seq<Group>): seq<Byte>
    requires AreGroups(g)
  {
    if g == [] then [] else BytesOf(g[0]) + RawBytes(g[1..])
  }

  /** A text without any character that is neither a hexadecimal digit nor a dot. */
  predicate OnlyDigitsAndDots(s: seq<Byte>) {
    s != [] && forall i :: 0 <= i < |s| ==> s[i] == DOT || HexDigit(s[i]) >= 0
  }

  lemma {:induction false} JoinedDigits(fields: seq<seq<Byte>>)
    requires fields != [] && AreFields(fields)
    ensures OnlyDigitsAndDots(Join(fields, DOT)) && (|fields| > 1 ==> DOT in Join(fields, DOT))
  {
    hide Value;
    if |fields| > 1 {
      JoinedDigits(fields[1..]);
      assert Join(fields, DOT)[|fields[0]|] == DOT;
    }
  }

  lemma SpelledDigits(s: seq<Byte>, digits: seq<nat>)
    requires Spells(s, digits) && s != []
    ensures OnlyDigitsAndDots(s) && DOT !in s
  {
    hide HexDigit, Stands;
    forall i | 0 <= i < |s| ensures HexDigit(s[i]) >= 0 && s[i] != DOT {
      DigitIsPlace(s[i], digits[i]);
      DotIsNoDigit();
    }
  }

  lemma DotIsNoDigit()
    ensures HexDigit(DOT) < 0 && HexDigit(COLON) < 0
  {
  }

  /** One group is read as what it means. */
  lemma GroupRoundTrip(g: Group)
    requires IsGroup(g)
    ensures PieceOf(TextOf(g)) == Some(BytesOf(g))
    ensures OnlyDigitsAndDots(TextOf(g)) && COLON !in TextOf(g)
  {
    hide HexDigit, QuadOf, HexOf, Join;
    match g
    case Hex(text, digits) =>
      SpelledDigits(text, digits);
      HexOfSpelled(text, digits);
      DotIsNoDigit();
    case Dotted(fields) =>
      JoinedDigits(fields);
      QuadOfFields(fields);
      DotIsNoDigit();
  }

  /** Only such groups are accepted. */
  lemma GroupOfPiece(s: seq<Byte>) returns (g: Group)
    requires s != [] && PieceOf(s).Some?
    ensures IsGroup(g) && TextOf(g) == s && PieceOf(s) == Some(BytesOf(g))
  {
    hide QuadOf, HexOf, Join;
    if DOT in s {
      var fields := FieldsOfQuad(s);
      g := Dotted(fields);
    } else {
      HexBound(s);
      var digits := SpelledByHex(s);
      g := Hex(s, digits);
    }
  }

  lemma {:induction false} GroupsRoundTrip(g: seq<Group>)
    requires AreGroups(g)
    ensures GroupsOf(Text(g)) == Some(RawBytes(g))
    ensures g != [] ==> Text(g) != [] && GroupsOf(Text(g) + [COLON]) == Some(RawBytes(g))
  {
    hide Split, PieceOf, IsGroup, TextOf;
    if g != [] {
      var first := TextOf(g[0]);
      GroupRoundTrip(g[0]);
      if |g| == 1 {
        SplitNone(first, COLON);
        SplitAt(first, COLON, []);
        assert first + [COLON] + [] == Text(g) + [COLON];
        assert RawBytes(g[1..]) == [] && GroupsOf([]) == Some([]);
      } else {
        var rest := Text(g[1..]);
        GroupsRoundTrip(g[1..]);
        SplitAt(first, COLON, rest);
        SplitAt(first, COLON, rest + [COLON]);
        assert first + [COLON] + (rest + [COLON]) == Text(g) + [COLON];
      }
    }
  }

  /** Only groups with colons between them are accepted, and with one more colon behind them. */
  lemma {:induction false} GroupsAccepted(s: seq<Byte>) returns (g: seq<Group>)
    requires GroupsOf(s).Some?
    ensures AreGroups(g) && GroupsOf(s) == Some(RawBytes(g)) && (g == [] <==> s == [])
    ensures s == Text(g) || s == Text(g) + [COLON]
    decreases |s|
  {
    hide Split, PieceOf, IsGroup, TextOf;
    if s == [] {
      g := [];
    } else {
      SplitParts(s, COLON);
      SplitShrinks(s);
      var (piece, rest) := Split(s, [COLON]);
      var first := GroupOfPiece(piece);
      var more := GroupsAccepted(rest);
      g := [first] + more;
      assert g[1..] == more;
    }
  }

  /** No colon at either end and no two in a row. */
  ghost predicate Spaced(s: seq<Byte>) {
    (s != [] ==> s[0] != COLON && s[|s| - 1] != COLON) &&
    forall i :: 0 <= i < |s| - 1 ==> s[i] != COLON || s[i + 1] != COLON
  }

  lemma {:induction false} TextSpaced(g: seq<Group>)
    requires AreGroups(g)
    ensures Spaced(Text(g)) && (g != [] ==> Text(g) != [])
  {
    hide IsGroup, TextOf;
    if g != [] {
      GroupRoundTrip(g[0]);
      hide HexDigit;
      DotIsNoDigit();
      if |g| > 1 { TextSpaced(g[1..]); }
    }
  }

  lemma DoubleColonSplit(l: seq<Byte>, r: seq<Byte>)
    requires Spaced(l)
    ensures Split(l + [COLON, COLON] + r, [COLON, COLON]) == (l, r)
  {
    var cc := [COLON, COLON];
    var s := l + cc + r;
    assert s[|l|..|l| + 2] == cc;
    forall j | 0 <= j < |l| ensures !OccursAt(s, cc, j) {
      assert s[j..j + 2] == [s[j], s[j + 1]];
      assert j + 1 < |l| ==> l[j] == s[j] && l[j + 1] == s[j + 1];
    }
    LocationUnique(s, cc, true, |l|);
    assert s[..|l|] == l && s[|l| + 2..] == r;
  }

  lemma NoDoubleColon(s: seq<Byte>)
    requires Spaced(s)
    ensures Split(s, [COLON, COLON]) == (s, [])
  {
    var cc := [COLON, COLON];
    forall j | 0 <= j <= |s| ensures !OccursAt(s, cc, j) {
      if j + 2 <= |s| { assert s[j..j + 2] == [s[j], s[j + 1]]; }
    }
    LocationUnique(s, cc, false, 0);
  }

  /** Groups without `::` give their bytes, sixteen or fewer; more are refused. */
  lemma PlainFormRoundTrip(g: seq<Group>)
    requires AreGroups(g)
    ensures Ipv6Of(Text(g)) == if |RawBytes(g)| > 16 then None else Some(RawBytes(g))
  {
    hide GroupsOf, Split, Text, RawBytes, IsGroup;
    TextSpaced(g);
    NoDoubleColon(Text(g));
    GroupsRoundTrip(g);
    EmptyGroups();
  }

  lemma EmptyGroups()
    ensures Text([]) == [] && RawBytes([]) == [] && GroupsOf([]) == Some([])
  {
  }

  /** `::` stands for the zeroes between what is in front of it and what follows. When nothing
      follows, the code leaves the zeroes out: the result is then shorter than sixteen bytes, unless
      all sixteen stand in front. */
  lemma CompressedRoundTrip(l: seq<Group>, r: seq<Group>)
    requires AreGroups(l) && AreGroups(r)
    ensures var a, b := RawBytes(l), RawBytes(r);
      Ipv6Of(Text(l) + [COLON, COLON] + Text(r)) ==
        if |a| + |b| > 16 then None else if r == [] then Some(a) else Some(a + Zeros(16 - |a| - |b|) + b)
  {
    hide GroupsOf, Split, Text, IsGroup;
    TextSpaced(l);
    DoubleColonSplit(Text(l), Text(r));
    GroupsRoundTrip(l);
    GroupsRoundTrip(r);
    EmptyGroups();
  }

  /** So there are sixteen bytes exactly when something follows, or nothing is missing. */
  lemma SixteenBytes(l: seq<Group>, r: seq<Group>)
    requires AreGroups(l) && AreGroups(r) && |RawBytes(l)| + |RawBytes(r)| <= 16
    ensures Ipv6Of(Text(l) + [COLON, COLON] + Text(r)).Some?
    ensures |Ipv6Of(Text(l) + [COLON, COLON] + Text(r)).value| == 16 <==> r != [] || |RawBytes(l)| == 16
  {
    hide IsGroup, Text, Ipv6Of;
    CompressedRoundTrip(l, r);
    if r != [] { assert |BytesOf(r[0])| > 0; }
  }
}
