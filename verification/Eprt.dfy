/**
The argument of EPRT (`handle_eprt` in `postlogin.c`; section 2 of RFC 2428): protocol, address
and port between bars.
*/
module Eprt {
  import opened Common
  import opened Decimal
  import opened IpAddrParse
  import opened Ipv6Parse
  import opened Str

  const BAR: Byte := 124
  const PERCENT: Byte := 37

  /** What the argument comes to: two kinds of complaint, an address that is too short, on which
      a bounds check ends the process, or the address and the port that it names. */
  datatype Parsed = BadProtocol | Malformed | TooShort | Named(ip: seq<Byte>, port: nat)

  /** The address in the form of the session: an IPv6 address may have a scope behind it. */
  function HostOf(isIpv6: bool, proto: int, text: seq<Byte>): Option<seq<Byte>> {
    if proto == 2 then Ipv6Of(Split(text, [PERCENT]).0)
    else
      match Uchars(text, DOT, 4)
      case None => None
      case Some(raw) => Some(SetIpv4(isIpv6, raw))
  }

  function EprtArgument(isIpv6: bool, s: seq<Byte>): (r: Parsed)
    ensures r.Named? ==> r.port <= 65535
  {
    var (front, body) := Split(s, [BAR]);
    var (protoText, hostOn) := Split(body, [BAR]);
    var (host, portOn) := Split(hostOn, [BAR]);
    var (portText, more) := Split(portOn, [BAR]);
    var proto, port := Atoi(protoText), Atoi(portText);
    if front != [] then Malformed
    else if proto < 1 || proto > 2 || (!isIpv6 && proto == 2) then BadProtocol
    else
      match HostOf(isIpv6, proto, host)
      case None => Malformed
      case Some(ip) =>
        if proto == 2 && |ip| < 16 then TooShort
        else if more != [] || portText == [] || port < 0 || port > 65535 then Malformed
        else Named(ip, port)
  }

  /** The parsing part of `handle_eprt`. */
  method ParseEprt(isIpv6: bool, arg: seq<Byte>) returns (r: Parsed)
    ensures r == EprtArgument(isIpv6, arg)
  {
    hide Atoi, Split, Ipv6Of, Uchars;
    var part1, part2 := SplitText(arg, [BAR]);
    if part1 != [] { return Malformed; }
    part2, part1 := SplitText(part2, [BAR]);
    var proto := Atoi(part2);
    if proto < 1 || proto > 2 || (!isIpv6 && proto == 2) { return BadProtocol; }
    part1, part2 := SplitText(part1, [BAR]);
    var ip;
    if proto == 2 {
      var scope;
      part1, scope := SplitText(part1, [PERCENT]);
      var raw := ParseIpv6(part1);
      if raw.None? { return Malformed; }
      if |raw.value| < 16 { return TooShort; }
      ip := raw.value;
    } else {
      var items: array<Byte> := new Byte[4](_ => 0);
      var ok := ParseUchars(part1, DOT, items);
      if !ok { return Malformed; }
      ip := SetIpv4(isIpv6, items[..]);
    }
    part2, part1 := SplitText(part2, [BAR]);
    if part1 != [] || part2 == [] { return Malformed; }
    var port := Atoi(part2);
    if port < 0 || port > 65535 { return Malformed; }
    return Named(ip, port);
  }

  // ----- parsing undoes printing

  /** What a client sends. */
  function EprtText(proto: nat, host: seq<Byte>, port: nat): seq<Byte> {
    [BAR] + Print(proto) + [BAR] + host + [BAR] + Print(port) + [BAR]
  }

  lemma EprtFields(proto: nat, host: seq<Byte>, port: nat)
    requires BAR !in host
    ensures var (front, body) := Split(EprtText(proto, host, port), [BAR]);
      var (protoText, hostOn) := Split(body, [BAR]);
      var (host', portOn) := Split(hostOn, [BAR]);
      front == [] && protoText == Print(proto) && host' == host && Split(portOn, [BAR]) == (Print(port), [])
  {
    hide Split, Print;
    var portOn := Print(port) + [BAR];
    var hostOn := host + [BAR] + portOn;
    var body := Print(proto) + [BAR] + hostOn;
    assert EprtText(proto, host, port) == [] + [BAR] + body;
    SplitAt([], BAR, body);
    PrintIsNot(proto, BAR);
    SplitAt(Print(proto), BAR, hostOn);
    SplitAt(host, BAR, portOn);
    PrintIsNot(port, BAR);
    assert portOn == Print(port) + [BAR] + [];
    SplitAt(Print(port), BAR, []);
  }

  /** An EPRT with a protocol that the session speaks, an address that has a meaning for it and
      any port is understood. */
  lemma EprtUnderstood(isIpv6: bool, proto: nat, host: seq<Byte>, ip: seq<Byte>, port: nat)
    requires (proto == 1 || (proto == 2 && isIpv6 && |ip| == 16)) && port < 65536
    requires BAR !in host && HostOf(isIpv6, proto, host) == Some(ip)
    ensures EprtArgument(isIpv6, EprtText(proto, host, port)) == Named(ip, port)
  {
    hide Split, Print, EprtText, Atoi, HostOf;
    EprtFields(proto, host, port);
    AtoiOfPrint(proto);
    AtoiOfPrint(port);
    assert Print(port) != [];
  }

  lemma {:induction false} NotInUchars(v: seq<Byte>, sep: Byte, c: Byte)
    requires c != sep && !IsDigit(c)
    ensures c !in PrintUchars(v, sep)
  {
    if v != [] {
      PrintIsNot(v[0], c);
      NotInUchars(v[1..], sep, c);
    }
  }

  /** A printed IPv4 address names itself, or on an IPv6 session its mapped form. */
  lemma EprtIpv4RoundTrip(isIpv6: bool, addr: seq<Byte>, port: nat)
    requires |addr| == 4 && port < 65536
    ensures EprtArgument(isIpv6, EprtText(1, PrintUchars(addr, DOT), port)) == Named(SetIpv4(isIpv6, addr), port)
  {
    hide Split, Print, EprtText, EprtArgument, Uchars, PrintUchars;
    UcharsRoundTrip(addr, DOT);
    NotInUchars(addr, DOT, BAR);
    EprtUnderstood(isIpv6, 1, PrintUchars(addr, DOT), SetIpv4(isIpv6, addr), port);
  }

  lemma {:induction false} NotInGroups(g: seq<Group>, c: Byte)
    requires AreGroups(g) && c != COLON && c != DOT && HexDigit(c) < 0
    ensures c !in Text(g)
  {
    hide HexDigit, IsGroup, TextOf;
    if g != [] {
      GroupRoundTrip(g[0]);
      NotInGroups(g[1..], c);
    }
  }

  /** A scope behind an address is ignored. */
  lemma ScopeIsIgnored(host: seq<Byte>, scope: seq<Byte>)
    requires PERCENT !in host
    ensures Split(host, [PERCENT]).0 == host && Split(host + [PERCENT] + scope, [PERCENT]).0 == host
  {
    SplitNone(host, PERCENT);
    SplitAt(host, PERCENT, scope);
  }

  /** An IPv6 address without `::`, in any spelling, names its sixteen bytes, with or without a
      scope. */
  lemma EprtIpv6RoundTrip(g: seq<Group>, scope: seq<Byte>, port: nat)
    requires AreGroups(g) && |RawBytes(g)| == 16 && BAR !in scope && port < 65536
    ensures EprtArgument(true, EprtText(2, Text(g), port)) == Named(RawBytes(g), port)
    ensures EprtArgument(true, EprtText(2, Text(g) + [PERCENT] + scope, port)) == Named(RawBytes(g), port)
  {
    hide Split, Print, EprtText, EprtArgument, Text, RawBytes, Ipv6Of;
    GroupsHaveNoBar(g);
    PlainFormRoundTrip(g);
    EprtScoped(Text(g), RawBytes(g), scope, port);
  }

  /** The same with `::`, if something follows it. */
  lemma EprtCompressedRoundTrip(l: seq<Group>, r: seq<Group>, scope: seq<Byte>, port: nat)
    requires AreGroups(l) && AreGroups(r) && r != [] && |RawBytes(l)| + |RawBytes(r)| <= 16
    requires BAR !in scope && port < 65536
    ensures var host, a, b := Text(l) + [COLON, COLON] + Text(r), RawBytes(l), RawBytes(r);
      EprtArgument(true, EprtText(2, host, port)) == EprtArgument(true, EprtText(2, host + [PERCENT] + scope, port)) ==
        Named(a + Zeros(16 - |a| - |b|) + b, port)
  {
    hide Split, Print, EprtText, EprtArgument, Text, RawBytes, Ipv6Of;
    GroupsHaveNoBar(l);
    GroupsHaveNoBar(r);
    CompressedRoundTrip(l, r);
    var host, a, b := Text(l) + [COLON, COLON] + Text(r), RawBytes(l), RawBytes(r);
    EprtScoped(host, a + Zeros(16 - |a| - |b|) + b, scope, port);
  }

  lemma EprtScoped(host: seq<Byte>, ip: seq<Byte>, scope: seq<Byte>, port: nat)
    requires BAR !in host && PERCENT !in host && BAR !in scope && port < 65536
    requires Ipv6Of(host) == Some(ip) && |ip| == 16
    ensures EprtArgument(true, EprtText(2, host, port)) == Named(ip, port)
    ensures EprtArgument(true, EprtText(2, host + [PERCENT] + scope, port)) == Named(ip, port)
  {
    hide Split, Print, EprtText, EprtArgument, Ipv6Of;
    ScopeIsIgnored(host, scope);
    EprtUnderstood(true, 2, host, ip, port);
    EprtUnderstood(true, 2, host + [PERCENT] + scope, ip, port);
  }

  // ----- exactly which arguments are understood

  /** `s` has these three fields between bars, and perhaps a bar behind them. */
  ghost predicate IsEprt(s: seq<Byte>, proto: seq<Byte>, host: seq<Byte>, port: seq<Byte>) {
    && BAR !in proto && BAR !in host && BAR !in port && port != []
    && (s == [BAR] + (proto + [BAR] + (host + [BAR] + port))
        || s == [BAR] + (proto + [BAR] + (host + [BAR] + (port + [BAR] + []))))
  }

  /** The fields mean this address and port. */
  predicate Mean(isIpv6: bool, proto: seq<Byte>, host: seq<Byte>, port: seq<Byte>, ip: seq<Byte>, number: nat) {
    && (Atoi(proto) == 1 || (Atoi(proto) == 2 && isIpv6 && |ip| >= 16))
    && HostOf(isIpv6, Atoi(proto), host) == Some(ip) && Atoi(port) == number <= 65535
  }

  lemma NamedByFields(
      isIpv6: bool, s: seq<Byte>, proto: seq<Byte>, host: seq<Byte>, port: seq<Byte>, ip: seq<Byte>, number: nat)
    requires IsEprt(s, proto, host, port) && Mean(isIpv6, proto, host, port, ip, number)
    ensures EprtArgument(isIpv6, s) == Named(ip, number)
  {
    hide Split, Atoi, HostOf;
    var portOn := if s == [BAR] + (proto + [BAR] + (host + [BAR] + port)) then port else port + [BAR] + [];
    var hostOn := host + [BAR] + portOn;
    var body := proto + [BAR] + hostOn;
    assert s == [] + [BAR] + body;
    SplitAt([], BAR, body);
    SplitAt(proto, BAR, hostOn);
    SplitAt(host, BAR, portOn);
    SplitNone(port, BAR);
    SplitAt(port, BAR, []);
  }

  lemma FieldsOfNamed(isIpv6: bool, s: seq<Byte>)
      returns (proto: seq<Byte>, host: seq<Byte>, port: seq<Byte>)
    requires EprtArgument(isIpv6, s).Named?
    ensures var r := EprtArgument(isIpv6, s);
      IsEprt(s, proto, host, port) && Mean(isIpv6, proto, host, port, r.ip, r.port)
  {
    hide Split, Atoi, HostOf;
    assert Atoi([]) == 0 by { NothingIsZero(); }
    var (front, body) := Split(s, [BAR]);
    var (protoText, hostOn) := Split(body, [BAR]);
    var (hostText, portOn) := Split(hostOn, [BAR]);
    var (portText, more) := Split(portOn, [BAR]);
    SplitParts(s, BAR);
    SplitParts(body, BAR);
    SplitParts(hostOn, BAR);
    SplitParts(portOn, BAR);
    assert [] + [BAR] + body == [BAR] + body;
    NothingSplits();
    proto, host, port := protoText, hostText, portText;
  }

  lemma NothingIsZero()
    ensures Atoi([]) == 0
  {
  }

  lemma NothingSplits()
    ensures Split([], [BAR]) == ([], [])
  {
    SplitNone([], BAR);
  }

  /** An argument names an address and a port if and only if it consists of three fields that mean
      them. */
  lemma EprtExactly(isIpv6: bool, s: seq<Byte>, ip: seq<Byte>, number: nat)
    ensures EprtArgument(isIpv6, s) == Named(ip, number) <==>
      exists proto, host, port :: IsEprt(s, proto, host, port) && Mean(isIpv6, proto, host, port, ip, number)
  {
    hide EprtArgument, IsEprt, Mean;
    if EprtArgument(isIpv6, s) == Named(ip, number) {
      var proto, host, port := FieldsOfNamed(isIpv6, s);
    }
    if proto, host, port :| IsEprt(s, proto, host, port) && Mean(isIpv6, proto, host, port, ip, number) {
      NamedByFields(isIpv6, s, proto, host, port, ip, number);
    }
  }

  // ----- an IPv4 address on an IPv6 session

  /** The address that an IPv4 address is mapped to is the one with `::ffff:` in front of it
      (section 2.5.5.2 of RFC 4291). */
  lemma MappedAddress(raw: seq<Byte>)
    requires |raw| == 4
    ensures Ipv6Of([COLON, COLON] + [102, 102, 102, 102, COLON] + PrintUchars(raw, DOT)) == Some(SetIpv4(true, raw))
  {
    hide Print, Value, Ipv6Of, Text, RawBytes, Join, PrintUchars;
    var ffff := Hex([102, 102, 102, 102], [15, 15, 15, 15]);
    FfffIsGroup();
    var fields := PrintedFields(raw);
    var quad := Dotted(fields);
    TwoGroups(ffff, quad);
    EmptyGroups();
    CompressedRoundTrip([], [ffff, quad]);
    var text := [102, 102, 102, 102] + [COLON] + PrintUchars(raw, DOT);
    assert [] + [COLON, COLON] + text == [COLON, COLON] + [102, 102, 102, 102, COLON] + PrintUchars(raw, DOT);
    assert [] + Zeros(10) + ([255, 255] + raw) == MAPPED + raw;
  }

  lemma TwoGroups(g: Group, h: Group)
    requires IsGroup(g) && IsGroup(h)
    ensures AreGroups([g, h]) && Text([g, h]) == TextOf(g) + [COLON] + TextOf(h)
    ensures RawBytes([g, h]) == BytesOf(g) + BytesOf(h)
  {
    hide IsGroup;
    assert [g, h][1..] == [h] && [h][1..] == [];
    assert RawBytes([h]) == BytesOf(h);
  }

  lemma PrintedFields(raw: seq<Byte>) returns (fields: seq<seq<Byte>>)
    requires |raw| == 4
    ensures |fields| == 4 && AreFields(fields) && Values(fields) == raw && Join(fields, DOT) == PrintUchars(raw, DOT)
  {
    fields := seq(4, i requires 0 <= i < 4 => Print(raw[i]));
    forall i | 0 <= i < 4 ensures IsField(fields[i]) && Value(fields[i]) == raw[i] { ValueOfPrint(raw[i]); }
    hide Print, Value;
    PrintedIsJoined(raw, fields);
  }

  lemma FfffIsGroup()
    ensures IsGroup(Hex([102, 102, 102, 102], [15, 15, 15, 15])) && Radix([15, 15, 15, 15]) == 0xffff
  {
    assert [15, 15, 15, 15][..3] == [15, 15, 15] && [15, 15, 15][..2] == [15, 15] && [15, 15][..1] == [15];
    assert Radix([15]) == 15 by { assert [15][..0] == []; }
  }

  lemma PrintedIsJoined(raw: seq<Byte>, fields: seq<seq<Byte>>)
    requires |raw| == |fields| == 4 && forall i :: 0 <= i < 4 ==> fields[i] == Print(raw[i])
    ensures PrintUchars(raw, DOT) == Join(fields, DOT)
  {
    assert raw[1..][1..][1..] == [raw[3]] && fields[1..][1..][1..] == [fields[3]];
    assert PrintUchars(raw[1..][1..], DOT) == Join(fields[1..][1..], DOT);
    assert PrintUchars(raw[1..], DOT) == Join(fields[1..], DOT);
  }

  // ----- when an EPRT ends the process

  lemma ShortIsItsHost(host: seq<Byte>, port: nat)
    requires BAR !in host && PERCENT !in host
    ensures EprtArgument(true, EprtText(2, host, port)).TooShort? <==> Ipv6Of(host).Some? && |Ipv6Of(host).value| < 16
  {
    hide Split, Print, EprtText, Atoi, Ipv6Of;
    EprtFields(2, host, port);
    AtoiOfPrint(2);
    ScopeIsIgnored(host, []);
  }

  lemma GroupsHaveNoBar(g: seq<Group>)
    requires AreGroups(g)
    ensures BAR !in Text(g) && PERCENT !in Text(g)
  {
    assert HexDigit(BAR) < 0 && HexDigit(PERCENT) < 0;
    NotInGroups(g, BAR);
    NotInGroups(g, PERCENT);
  }

  /** An address with `::` does so if and only if nothing follows it and something is missing. */
  lemma CompressedEndsProcess(l: seq<Group>, r: seq<Group>, port: nat)
    requires AreGroups(l) && AreGroups(r)
    ensures EprtArgument(true, EprtText(2, Text(l) + [COLON, COLON] + Text(r), port)).TooShort? <==>
      r == [] && |RawBytes(l)| < 16
  {
    hide EprtText, EprtArgument, Text, Ipv6Of, IsGroup;
    GroupsHaveNoBar(l);
    GroupsHaveNoBar(r);
    ShortIsItsHost(Text(l) + [COLON, COLON] + Text(r), port);
    CompressedRoundTrip(l, r);
  }

  /** An address without `::` does so if and only if it has fewer than sixteen bytes. */
  lemma ShortFormEndsProcess(g: seq<Group>, port: nat)
    requires AreGroups(g)
    ensures EprtArgument(true, EprtText(2, Text(g), port)).TooShort? <==> |RawBytes(g)| < 16
  {
    hide EprtText, EprtArgument, Text, Ipv6Of, RawBytes;
    GroupsHaveNoBar(g);
    ShortIsItsHost(Text(g), port);
    PlainFormRoundTrip(g);
  }
}
