/**
Address parsing (`ipaddrparse.c`) and its inverse, printing: IPv6 texts (section 2.2 of
RFC 4291) and the six numbers of PORT and PASV (section 4.1.2 of RFC 959).
*/
module IpAddrParse {
  import opened Common
  import opened Str
  import opened Decimal

  const COLON: Byte := 58
  const DOT: Byte := 46
  const COMMA: Byte := 44

  // ----- numbers separated by a character

  /** The `n` numbers of `s`; a number is whatever `atoi` makes of a field. */
  function Uchars(s: seq<Byte>, sep: Byte, n: nat): Option<seq<Byte>>
    decreases n
  {
    if n == 0 then Some([])
    else
      var (field, rest) := Split(s, [sep]);
      var number := Atoi(field);
      if (n > 1 && rest == []) || (n == 1 && rest != []) || number < 0 || number > 255 then None
      else
        match Uchars(rest, sep, n - 1)
        case None => None
        case Some(more) => Some([number] + more)
  }

  /** `vsf_sysutil_parse_uchar_string_sep`: fills `items`, or gives up part way. */
  method ParseUchars(str: seq<Byte>, sep: Byte, items: array<Byte>) returns (ok: bool)
    modifies items
    ensures ok == Uchars(str, sep, items.Length).Some?
    ensures ok ==> items[..] == Uchars(str, sep, items.Length).value
  {
    hide Atoi, Split;
    var tmp := str;
    var n := items.Length;
    ghost var whole := Uchars(str, sep, n);
    var i := 0;
    while i < n
      invariant 0 <= i <= n
      invariant whole.Some? == Uchars(tmp, sep, n - i).Some?
      invariant whole.Some? ==> whole.value == items[..i] + Uchars(tmp, sep, n - i).value
    {
      var field, rest := SplitText(tmp, [sep]);
      if (i < n - 1 && rest == []) || (i == n - 1 && rest != []) { return false; }
      var number := Atoi(field);
      if number < 0 || number > 255 { return false; }
      ghost var done, more := items[..i], Uchars(rest, sep, n - i - 1);
      items[i] := number;
      assert items[..i + 1] == done + [number];
      assert more.Some? ==> done + ([number] + more.value) == done + [number] + more.value;
      tmp := rest;
      i := i + 1;
    }
    assert items[..i] == items[..];
    return true;
  }

  /** Numbers printed one after the other with `sep` between them. */
  function PrintUchars(v: seq<Byte>, sep: Byte): seq<Byte> {
    if v == [] then [] else if |v| == 1 then Print(v[0])
    else Print(v[0]) + [sep] + PrintUchars(v[1..], sep)
  }

  /** Splitting at a character that the left part does not contain. */
  lemma SplitAt(left: seq<Byte>, sep: Byte, right: seq<Byte>)
    requires sep !in left
    ensures Split(left + [sep] + right, [sep]) == (left, right)
  {
    var s := left + [sep] + right;
    assert s[|left|..|left| + 1] == [sep];
    forall j | 0 <= j < |left| ensures !OccursAt(s, [sep], j) {
      assert s[j..j + 1] == [left[j]];
    }
    LocationUnique(s, [sep], true, |left|);
    assert s[..|left|] == left && s[|left| + 1..] == right;
  }

  lemma SplitNone(s: seq<Byte>, sep: Byte)
    requires sep !in s
    ensures Split(s, [sep]) == (s, [])
  {
    forall j | 0 <= j <= |s| ensures !OccursAt(s, [sep], j) {
      if j < |s| { assert s[j..j + 1] == [s[j]]; }
    }
    LocationUnique(s, [sep], false, 0);
  }

  lemma PrintIsNot(n: nat, c: Byte)
    requires !IsDigit(c)
    ensures c !in Print(n)
  {
    assert AllDigits(Print(n));
  }

  /** Parsing undoes printing. */
  lemma {:induction false} UcharsRoundTrip(v: seq<Byte>, sep: Byte)
    requires v != [] && !IsDigit(sep)
    ensures PrintUchars(v, sep) != [] && Uchars(PrintUchars(v, sep), sep, |v|) == Some(v)
  {
    hide Atoi, Split, Print;
    PrintIsNot(v[0], sep);
    AtoiOfPrint(v[0]);
    if |v| == 1 {
      SplitNone(Print(v[0]), sep);
      assert Uchars([], sep, 0) == Some([]);
      assert [v[0]] + [] == v;
    } else {
      UcharsRoundTrip(v[1..], sep);
      SplitAt(Print(v[0]), sep, PrintUchars(v[1..], sep));
      assert [v[0]] + v[1..] == v;
    }
  }

  // ----- exactly which texts are accepted

  /** Texts with `sep` between them. */
  function Join(fields: seq<seq<Byte>>, sep: Byte): seq<Byte> {
    if |fields| == 0 then [] else if |fields| == 1 then fields[0]
    else fields[0] + [sep] + Join(fields[1..], sep)
  }

  ghost predicate FreeOf(fields: seq<seq<Byte>>, sep: Byte) {
    forall i :: 0 <= i < |fields| ==> sep !in fields[i]
  }

  /** `s` is these fields with `sep` between them, and perhaps one more behind them; behind a
      separator there is something. */
  ghost predicate IsList(s: seq<Byte>, fields: seq<seq<Byte>>, trailing: bool, sep: Byte) {
    && fields != [] && FreeOf(fields, sep)
    && s == Join(fields, sep) + (if trailing then [sep] else [])
    && (|fields| == 1 || fields[|fields| - 1] != [] || trailing)
  }

  ghost predicate AreNumbers(fields: seq<seq<Byte>>, v: seq<Byte>) {
    |fields| == |v| && forall i :: 0 <= i < |v| ==> Atoi(fields[i]) == v[i]
  }

  lemma {:induction false} UcharsOfList(s: seq<Byte>, fields: seq<seq<Byte>>, trailing: bool, sep: Byte, v: seq<Byte>)
    requires IsList(s, fields, trailing, sep) && AreNumbers(fields, v)
    ensures Uchars(s, sep, |v|) == Some(v)
    decreases |v|
  {
    hide Atoi, Split;
    var f := fields[0];
    assert v == [v[0]] + v[1..];
    if |v| == 1 {
      assert Uchars([], sep, 0) == Some([]);
      if trailing {
        SplitAt(f, sep, []);
        assert f + [sep] + [] == s;
      } else {
        assert s == f;
        SplitNone(f, sep);
      }
    } else {
      var rest := Join(fields[1..], sep) + (if trailing then [sep] else []);
      assert s == f + [sep] + rest;
      SplitAt(f, sep, rest);
      UcharsOfList(rest, fields[1..], trailing, sep, v[1..]);
    }
  }

  lemma SplitParts(s: seq<Byte>, sep: Byte)
    ensures var (l, r) := Split(s, [sep]); sep !in l && (s == l + [sep] + r || (s == l && r == []))
  {
    var i := Locate(s, [sep]);
    var left := if i < 0 then s else s[..i];
    if sep in left {
      var j :| 0 <= j < |left| && left[j] == sep;
      assert s[j..j + 1] == [sep] && OccursAt(s, [sep], j);
      assert false;
    }
    if i >= 0 {
      assert s[i..i + 1] == [sep];
      assert s == s[..i] + s[i..i + 1] + s[i + 1..];
    }
  }

  /** One more field in front. */
  lemma ListGrows(f: seq<Byte>, rest: seq<Byte>, more: seq<seq<Byte>>, trailing: bool, sep: Byte)
    requires sep !in f && rest != [] && IsList(rest, more, trailing, sep)
    ensures IsList(f + [sep] + rest, [f] + more, trailing, sep)
  {
    var fields := [f] + more;
    assert fields[1..] == more && fields[0] == f;
    var tail := if trailing then [sep] else [];
    assert f + [sep] + (Join(more, sep) + tail) == f + [sep] + Join(more, sep) + tail;
    forall i | 0 <= i < |fields| ensures sep !in fields[i] {
      if i > 0 { assert fields[i] == more[i - 1]; }
    }
  }

  lemma {:induction false} ListOfUchars(s: seq<Byte>, sep: Byte, n: nat)
      returns (fields: seq<seq<Byte>>, trailing: bool)
    requires n > 0 && Uchars(s, sep, n).Some?
    ensures IsList(s, fields, trailing, sep) && |fields| == n && AreNumbers(fields, Uchars(s, sep, n).value)
    decreases n
  {
    hide Atoi, Split;
    SplitParts(s, sep);
    var (f, rest) := Split(s, [sep]);
    if n == 1 {
      assert Uchars(rest, sep, 0) == Some([]);
      fields, trailing := [f], s != f;
    } else {
      hide Join, IsList, FreeOf;
      var more;
      more, trailing := ListOfUchars(rest, sep, n - 1);
      ListGrows(f, rest, more, trailing, sep);
      fields := [f] + more;
    }
  }

  /** A text is accepted, with these numbers, if and only if it is a list of so many fields and
      the library reads each of them as its number. */
  lemma UcharsExactly(s: seq<Byte>, sep: Byte, v: seq<Byte>)
    requires v != []
    ensures Uchars(s, sep, |v|) == Some(v) <==>
      exists fields, trailing :: IsList(s, fields, trailing, sep) && AreNumbers(fields, v)
  {
    if Uchars(s, sep, |v|) == Some(v) {
      var fields, trailing := ListOfUchars(s, sep, |v|);
    }
    if fields, trailing :| IsList(s, fields, trailing, sep) && AreNumbers(fields, v) {
      UcharsOfList(s, fields, trailing, sep, v);
    }
  }

  // ----- PASV and PORT

  /** What stands in front of an IPv4 address that is mapped into IPv6. */
  const MAPPED: seq<Byte> := [0, 0, 0, 0, 0, 0, 0, 0, 0, 0, 0xFF, 0xFF]

  /** `vsf_sysutil_sockaddr_set_ipv4addr`: the address in the family of the session. */
  function SetIpv4(isIpv6: bool, raw: seq<Byte>): seq<Byte> {
    if isIpv6 then MAPPED + raw else raw
  }

  /** The numbers in a PASV reply: the address with its dots replaced, then the port. */
  function PasvText(addr: seq<Byte>, port: nat): seq<Byte>
    requires |addr| == 4 && port < 65536
  {
    ReplaceChar(PrintUchars(addr, DOT), DOT, COMMA) + [COMMA] + Print(port / 256) + [COMMA] + Print(port % 256)
  }

  /** What `handle_port` makes of its argument: address and port. */
  function PortArgument(s: seq<Byte>): Option<(seq<Byte>, nat)> {
    match Uchars(s, COMMA, 6)
    case None => None
    case Some(v) =>
      if |v| != 6 then None
      else
        var high: int, low: int := v[4], v[5];
        Some((v[..4], high * 256 + low))
  }

  lemma {:induction false} DotsToCommas(v: seq<Byte>)
    ensures ReplaceChar(PrintUchars(v, DOT), DOT, COMMA) == PrintUchars(v, COMMA)
  {
    if v != [] {
      PrintIsNot(v[0], DOT);
      assert ReplaceChar(Print(v[0]), DOT, COMMA) == Print(v[0]);
      if |v| > 1 {
        DotsToCommas(v[1..]);
        assert ReplaceChar(PrintUchars(v, DOT), DOT, COMMA) ==
               ReplaceChar(Print(v[0]), DOT, COMMA) + [COMMA] + ReplaceChar(PrintUchars(v[1..], DOT), DOT, COMMA);
      }
    }
  }

  lemma {:induction false} PrintUcharsSnoc(v: seq<Byte>, n: Byte, sep: Byte)
    requires v != []
    ensures PrintUchars(v + [n], sep) == PrintUchars(v, sep) + [sep] + Print(n)
  {
    if |v| == 1 {
      assert (v + [n])[1..] == [n];
    } else {
      PrintUcharsSnoc(v[1..], n, sep);
      assert (v + [n])[1..] == v[1..] + [n];
      SameTail(Print(v[0]) + [sep], PrintUchars(v[1..], sep), [sep], Print(n));
    }
  }

  /** The numbers announced in a PASV reply, given to PORT, name the same address and port. */
  lemma PasvPortRoundTrip(addr: seq<Byte>, port: nat)
    requires |addr| == 4 && port < 65536
    ensures PortArgument(PasvText(addr, port)) == Some((addr, port))
  {
    hide Uchars, Print, PrintUchars;
    var high: Byte, low: Byte := port / 256, port % 256;
    var v := addr + [high] + [low];
    DotsToCommas(addr);
    PrintUcharsSnoc(addr, high, COMMA);
    PrintUcharsSnoc(addr + [high], low, COMMA);
    UcharsRoundTrip(v, COMMA);
    assert v[..4] == addr;
  }
}
